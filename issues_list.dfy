/**
 * The client-side issue list: its local copy of the issues, and the two
 * handlers that change it, one for an inline status change and one for a
 * deletion. Each handler marks the issue as busy, awaits a request to the
 * server, updates the local list only if the request succeeded, and always
 * clears the busy marker afterwards.
 *
 * The list transforms the handlers apply are pure functions over sequences;
 * the component state is a class whose methods take the outcome of the
 * request (and of the confirmation dialog) as parameters.
 */
module IssuesList {
  import opened Wrappers
  import opened ValidationSchemas

  /** An issue as the list holds it. */
  datatype Issue = Issue(id: int, title: string, description: string, status: Status)

  /** The ids of a list of issues, in list order. */
  function Ids(issues: seq<Issue>): seq<int>
  {
    seq(|issues|, i requires 0 <= i < |issues| => issues[i].id)
  }

  /** No two issues of the list share an id (as rows loaded from the store do not). */
  predicate UniqueIds(issues: seq<Issue>)
  {
    forall i, j :: 0 <= i < j < |issues| ==> issues[i].id != issues[j].id
  }

  /** Whether some issue of the list has the id. */
  predicate HasId(issues: seq<Issue>, issueId: int)
  {
    exists i :: 0 <= i < |issues| && issues[i].id == issueId
  }

  /** An id occurs in a non-empty list iff it is the head's id or occurs in the tail. */
  lemma HasIdCons(issues: seq<Issue>, issueId: int)
    requires issues != []
    ensures HasId(issues, issueId) <==> issues[0].id == issueId || HasId(issues[1..], issueId)
  {
  }

  // ---------------------------------------------------------------------------
  // The status-change transform: map every issue, replacing the status of
  // those whose id matches.
  // ---------------------------------------------------------------------------

  function WithStatus(issues: seq<Issue>, issueId: int, newStatus: Status): (r: seq<Issue>)
    ensures |r| == |issues|
    ensures forall i :: 0 <= i < |issues| && issues[i].id == issueId ==> r[i] == issues[i].(status := newStatus)
    ensures forall i :: 0 <= i < |issues| && issues[i].id != issueId ==> r[i] == issues[i]
  {
    if issues == [] then []
    else
      var head := if issues[0].id == issueId then issues[0].(status := newStatus) else issues[0];
      [head] + WithStatus(issues[1..], issueId, newStatus)
  }

  /** A status change keeps the list's length and its ids in their order. */
  lemma StatusChangeKeepsIds(issues: seq<Issue>, issueId: int, newStatus: Status)
    ensures Ids(WithStatus(issues, issueId, newStatus)) == Ids(issues)
  {
  }

  /**
   * After a status change the matching issues carry the new status and their
   * id, title and description are as before.
   */
  lemma StatusChangeSetsMatching(issues: seq<Issue>, issueId: int, newStatus: Status, i: int)
    requires 0 <= i < |issues| && issues[i].id == issueId
    ensures var r := WithStatus(issues, issueId, newStatus);
      && r[i].status == newStatus
      && r[i].id == issues[i].id
      && r[i].title == issues[i].title
      && r[i].description == issues[i].description
  {
  }

  /** Applying the same status change twice is the same as applying it once. */
  lemma StatusChangeIdempotent(issues: seq<Issue>, issueId: int, newStatus: Status)
    ensures WithStatus(WithStatus(issues, issueId, newStatus), issueId, newStatus)
         == WithStatus(issues, issueId, newStatus)
  {
  }

  /** A status change for an id no issue has leaves the list as it is. */
  lemma StatusChangeOfAbsentId(issues: seq<Issue>, issueId: int, newStatus: Status)
    requires !HasId(issues, issueId)
    ensures WithStatus(issues, issueId, newStatus) == issues
  {
  }

  /** A status change keeps ids unique. */
  lemma StatusChangeKeepsUniqueIds(issues: seq<Issue>, issueId: int, newStatus: Status)
    requires UniqueIds(issues)
    ensures UniqueIds(WithStatus(issues, issueId, newStatus))
  {
  }

  // ---------------------------------------------------------------------------
  // The delete transform: filter out every issue whose id matches.
  // ---------------------------------------------------------------------------

  function Without(issues: seq<Issue>, issueId: int): (r: seq<Issue>)
    ensures |r| <= |issues|
    ensures forall x :: x in r <==> x in issues && x.id != issueId
  {
    if issues == [] then []
    else (if issues[0].id == issueId then [] else [issues[0]]) + Without(issues[1..], issueId)
  }

  /**
   * Filtering distributes over concatenation. With the two one-element cases
   * (an issue is kept exactly when its id differs), this pins the result down
   * as the other issues in their original order.
   */
  lemma {:induction false} DeleteDistributes(front: seq<Issue>, back: seq<Issue>, issueId: int)
    ensures Without(front + back, issueId) == Without(front, issueId) + Without(back, issueId)
  {
    if front == [] {
      assert front + back == back;
    } else {
      assert (front + back)[1..] == front[1..] + back;
      DeleteDistributes(front[1..], back, issueId);
    }
  }

  /** The one-element cases of the delete transform. */
  lemma DeleteSingle(issue: Issue, issueId: int)
    ensures Without([issue], issueId) == if issue.id == issueId then [] else [issue]
  {
  }

  /** After a delete, no issue with the id remains. */
  lemma DeleteRemovesId(issues: seq<Issue>, issueId: int)
    ensures !HasId(Without(issues, issueId), issueId)
  {
  }

  /** Deleting an id no issue has leaves the list as it is. */
  lemma {:induction false} DeleteOfAbsentId(issues: seq<Issue>, issueId: int)
    requires !HasId(issues, issueId)
    ensures Without(issues, issueId) == issues
  {
    if issues != [] {
      HasIdCons(issues, issueId);
      DeleteOfAbsentId(issues[1..], issueId);
      assert issues == [issues[0]] + issues[1..];
    }
  }

  /** Deleting the same id twice yields the same list as deleting it once. */
  lemma DeleteIdempotent(issues: seq<Issue>, issueId: int)
    ensures Without(Without(issues, issueId), issueId) == Without(issues, issueId)
  {
    DeleteRemovesId(issues, issueId);
    DeleteOfAbsentId(Without(issues, issueId), issueId);
  }

  /**
   * With distinct ids, deleting the id of the issue at position i leaves
   * exactly the issues before it followed by the issues after it.
   */
  lemma DeleteRemovesAt(issues: seq<Issue>, issueId: int, i: int)
    requires UniqueIds(issues)
    requires 0 <= i < |issues| && issues[i].id == issueId
    ensures Without(issues, issueId) == issues[..i] + issues[i + 1..]
  {
    var before, after := issues[..i], issues[i + 1..];
    assert issues == before + ([issues[i]] + after);
    assert !HasId(before, issueId) by {
      forall k | 0 <= k < |before|
        ensures before[k].id != issueId
      {
        assert before[k] == issues[k];
      }
    }
    assert !HasId(after, issueId) by {
      forall k | 0 <= k < |after|
        ensures after[k].id != issueId
      {
        assert after[k] == issues[i + 1 + k];
      }
    }
    DeleteDistributes(before, [issues[i]] + after, issueId);
    DeleteDistributes([issues[i]], after, issueId);
    DeleteSingle(issues[i], issueId);
    DeleteOfAbsentId(before, issueId);
    DeleteOfAbsentId(after, issueId);
  }

  /** A delete keeps ids unique. */
  lemma {:induction false} DeleteKeepsUniqueIds(issues: seq<Issue>, issueId: int)
    requires UniqueIds(issues)
    ensures UniqueIds(Without(issues, issueId))
  {
    if issues != [] {
      DeleteKeepsUniqueIds(issues[1..], issueId);
      var rest := Without(issues[1..], issueId);
      if issues[0].id != issueId {
        var r := [issues[0]] + rest;
        forall j | 0 < j < |r|
          ensures r[0].id != r[j].id
        {
          assert r[j] in rest;
          var k :| 0 <= k < |issues[1..]| && issues[1..][k] == r[j];
          assert issues[k + 1] == r[j];
        }
      }
    }
  }

  /** With unique ids, deleting an id that is present removes exactly one issue. */
  lemma DeletePresentIdRemovesOne(issues: seq<Issue>, issueId: int)
    requires UniqueIds(issues) && HasId(issues, issueId)
    ensures |Without(issues, issueId)| == |issues| - 1
  {
    var i :| 0 <= i < |issues| && issues[i].id == issueId;
    DeleteRemovesAt(issues, issueId, i);
  }

  /** Deleting an issue after changing its status is the same as deleting it straight away. */
  lemma {:induction false} DeleteAfterStatusChange(issues: seq<Issue>, issueId: int, newStatus: Status)
    ensures Without(WithStatus(issues, issueId, newStatus), issueId) == Without(issues, issueId)
  {
    if issues != [] {
      var changed := WithStatus(issues, issueId, newStatus);
      assert changed[1..] == WithStatus(issues[1..], issueId, newStatus);
      DeleteAfterStatusChange(issues[1..], issueId, newStatus);
    }
  }

  // ---------------------------------------------------------------------------
  // The request the status-change handler sends.
  // ---------------------------------------------------------------------------

  /** The body of the status-change request: only the status, spelled as the enum spells it. */
  function StatusChangeBody(newStatus: Status): UpdateIssueBody
  {
    UpdateIssueBody(None, None, Some(StatusName(newStatus)))
  }

  /** The body the list sends always passes the update schema, which parses back the status it was given. */
  lemma StatusChangeBodyAccepted(newStatus: Status)
    ensures UpdateIssueSchema(StatusChangeBody(newStatus)) == Success(IssueUpdate(None, None, Some(newStatus)))
  {
  }

  // ---------------------------------------------------------------------------
  // The component state and its two handlers. Each handler is split at its
  // `await`: Begin* is what runs before the request, Settle* what runs once
  // it has succeeded or failed (including the `finally`), and Handle* is the
  // whole handler when nothing else runs in between.
  // ---------------------------------------------------------------------------

  class ListState {
    var issues: seq<Issue>
    var updatingStatus: Option<int>
    var deleting: Option<int>

    /** The list starts from the issues it is given, with nothing busy. */
    constructor (initialIssues: seq<Issue>)
      ensures issues == initialIssues
      ensures updatingStatus == None && deleting == None
    {
      issues := initialIssues;
      updatingStatus := None;
      deleting := None;
    }

    /** Before the status request: mark the issue as having its status updated. */
    method BeginStatusChange(issueId: int)
      modifies this`updatingStatus
      ensures updatingStatus == Some(issueId)
    {
      updatingStatus := Some(issueId);
    }

    /** After the status request: on success apply the change to the list; in every case clear the marker. */
    method SettleStatusChange(issueId: int, newStatus: Status, requestSucceeded: bool)
      modifies this`issues, this`updatingStatus
      ensures issues == if requestSucceeded then WithStatus(old(issues), issueId, newStatus) else old(issues)
      ensures updatingStatus == None
    {
      if requestSucceeded {
        issues := WithStatus(issues, issueId, newStatus);
      }
      updatingStatus := None;
    }

    /** The whole status-change handler. */
    method HandleStatusChange(issueId: int, newStatus: Status, requestSucceeded: bool)
      modifies this`issues, this`updatingStatus
      ensures issues == if requestSucceeded then WithStatus(old(issues), issueId, newStatus) else old(issues)
      ensures Ids(issues) == Ids(old(issues))
      ensures UniqueIds(old(issues)) ==> UniqueIds(issues)
      ensures updatingStatus == None
    {
      BeginStatusChange(issueId);
      SettleStatusChange(issueId, newStatus, requestSucceeded);
      StatusChangeKeepsIds(old(issues), issueId, newStatus);
      if UniqueIds(old(issues)) {
        StatusChangeKeepsUniqueIds(old(issues), issueId, newStatus);
      }
    }

    /** Before the delete request (the user has confirmed): mark the issue as being deleted. */
    method BeginDelete(issueId: int)
      modifies this`deleting
      ensures deleting == Some(issueId)
    {
      deleting := Some(issueId);
    }

    /** After the delete request: on success drop the issue from the list; in every case clear the marker. */
    method SettleDelete(issueId: int, requestSucceeded: bool)
      modifies this`issues, this`deleting
      ensures issues == if requestSucceeded then Without(old(issues), issueId) else old(issues)
      ensures deleting == None
    {
      if requestSucceeded {
        issues := Without(issues, issueId);
      }
      deleting := None;
    }

    /**
     * The whole delete handler. If the user does not confirm, nothing
     * changes and no request is made.
     */
    method HandleDelete(issueId: int, confirmed: bool, requestSucceeded: bool)
      modifies this`issues, this`deleting
      ensures issues == if confirmed && requestSucceeded then Without(old(issues), issueId) else old(issues)
      ensures deleting == if confirmed then None else old(deleting)
      ensures confirmed && requestSucceeded ==> !HasId(issues, issueId)
      ensures UniqueIds(old(issues)) ==> UniqueIds(issues)
    {
      if !confirmed {
        return;
      }
      BeginDelete(issueId);
      SettleDelete(issueId, requestSucceeded);
      DeleteRemovesId(old(issues), issueId);
      if UniqueIds(old(issues)) {
        DeleteKeepsUniqueIds(old(issues), issueId);
      }
    }
  }
}
