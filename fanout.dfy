/** The writes a create request fans out to user records: one summary on the creator's
    `eventsCreated`, one on each listed approver's `approvalsRequested`, then one email per
    listed approver. */
module FanOut {
  import opened EventModel

  const Subject: string := "New Approval Requested"

  /** An approval-request email: recipient address, subject and the two names in its body. */
  datatype Mail = Mail(to: string, subject: string, eventName: string, clubName: string)

  /** The ids of the approval list, in list order. */
  function IdsOf(approval: seq<ApprovalRef>): (ids: seq<ObjectId>)
    ensures |ids| == |approval|
    ensures forall i | 0 <= i < |approval| :: ids[i] == approval[i].id
  {
    seq(|approval|, i requires 0 <= i < |approval| => approval[i].id)
  }

  predicate AllKnown(users: map<ObjectId, User>, ids: seq<ObjectId>)
  {
    forall i | 0 <= i < |ids| :: ids[i] in users
  }

  function Repeat(s: Summary, n: nat): (r: seq<Summary>)
  {
    seq(n, _ => s)
  }

  lemma RepeatSnoc(s: Summary, n: nat)
    ensures Repeat(s, n) + [s] == Repeat(s, n + 1)
  {
    assert (Repeat(s, n) + [s])[n] == s;
  }

  /** The creator's record after its summary is pushed onto `eventsCreated`. */
  function WithCreated(users: map<ObjectId, User>, creator: ObjectId, entry: Summary): (r: map<ObjectId, User>)
    requires creator in users
    ensures r.Keys == users.Keys
    ensures r[creator].eventsCreated == users[creator].eventsCreated + [entry]
    ensures r[creator].approvalsRequested == users[creator].approvalsRequested
    ensures forall u | u in users && u != creator :: r[u] == users[u]
  {
    users[creator := users[creator].(eventsCreated := users[creator].eventsCreated + [entry])]
  }

  /** The user records after the assignment loop has pushed `entry` onto the
      `approvalsRequested` of every id of `ids`, in order. */
  function AssignAll(users: map<ObjectId, User>, ids: seq<ObjectId>, entry: Summary): (r: map<ObjectId, User>)
    requires AllKnown(users, ids)
    ensures r.Keys == users.Keys
    decreases |ids|
  {
    if ids == [] then users
    else
      var prev := AssignAll(users, ids[..|ids| - 1], entry);
      var last := ids[|ids| - 1];
      prev[last := prev[last].(approvalsRequested := prev[last].approvalsRequested + [entry])]
  }

  /** Each occurrence of a user in the list appends one entry to that user's
      `approvalsRequested`; nothing else in any record changes. */
  lemma {:induction false} AssignAllAt(users: map<ObjectId, User>, ids: seq<ObjectId>, entry: Summary, u: ObjectId)
    requires AllKnown(users, ids)
    requires u in users
    ensures AssignAll(users, ids, entry)[u]
            == users[u].(approvalsRequested := users[u].approvalsRequested + Repeat(entry, multiset(ids)[u]))
  {
    if ids != [] {
      var init, last := ids[..|ids| - 1], ids[|ids| - 1];
      assert ids == init + [last];
      AssignAllAt(users, init, entry, u);
      if last == u {
        var counted: multiset<ObjectId> := multiset(init);
        var before := counted[u];
        RepeatSnoc(entry, before);
      }
    }
  }

  /** The user records after a create request has completed both pushes. */
  function AfterCreate(users: map<ObjectId, User>, creator: ObjectId, ids: seq<ObjectId>, entry: Summary): (r: map<ObjectId, User>)
    requires creator in users && AllKnown(users, ids)
    ensures r.Keys == users.Keys
  {
    AssignAll(WithCreated(users, creator, entry), ids, entry)
  }

  /** A successful create gives the creator exactly one more `eventsCreated` entry and every
      user one more `approvalsRequested` entry per occurrence in the approval list; everything
      else, and every user outside the list other than the creator, is unchanged. */
  lemma {:induction false} AfterCreateAt(users: map<ObjectId, User>, creator: ObjectId, ids: seq<ObjectId>,
                                        entry: Summary, u: ObjectId)
    requires creator in users && AllKnown(users, ids) && u in users
    ensures var r := AfterCreate(users, creator, ids, entry)[u];
      && r.eventsCreated == users[u].eventsCreated + (if u == creator then [entry] else [])
      && r.approvalsRequested == users[u].approvalsRequested + Repeat(entry, multiset(ids)[u])
      && r.name == users[u].name && r.thumbnail == users[u].thumbnail && r.email == users[u].email
    ensures u != creator && u !in ids ==> AfterCreate(users, creator, ids, entry)[u] == users[u]
  {
    var owned := WithCreated(users, creator, entry);
    AssignAllAt(owned, ids, entry, u);
    if u != creator && u !in ids {
      assert multiset(ids)[u] == 0;
      assert Repeat(entry, 0) == [];
      assert users[u].approvalsRequested + [] == users[u].approvalsRequested;
    }
  }

  /** When approver `k` has no record, the loop stops there: approvers before `k` got their
      entry, approvers from `k` on did not, unless they also occur before `k`. */
  lemma {:induction false} AssignPrefixAt(users: map<ObjectId, User>, ids: seq<ObjectId>, k: nat,
                                         entry: Summary, u: ObjectId)
    requires k <= |ids| && AllKnown(users, ids[..k]) && u in users
    ensures AssignAll(users, ids[..k], entry)[u].approvalsRequested
            == users[u].approvalsRequested + Repeat(entry, multiset(ids[..k])[u])
    ensures u !in ids[..k] ==> AssignAll(users, ids[..k], entry)[u] == users[u]
  {
    AssignAllAt(users, ids[..k], entry, u);
    if u !in ids[..k] {
      assert multiset(ids[..k])[u] == 0;
      assert Repeat(entry, 0) == [];
      assert users[u].approvalsRequested + [] == users[u].approvalsRequested;
    }
  }

  /** The emails of the send loop, one per listed approver, in list order. */
  function Notices(users: map<ObjectId, User>, ids: seq<ObjectId>, eventName: string, clubName: string): (r: seq<Mail>)
    requires AllKnown(users, ids)
    ensures |r| == |ids|
    ensures forall i | 0 <= i < |ids| :: r[i] == Mail(users[ids[i]].email, Subject, eventName, clubName)
    decreases |ids|
  {
    if ids == [] then []
    else
      var last := ids[|ids| - 1];
      Notices(users, ids[..|ids| - 1], eventName, clubName) + [Mail(users[last].email, Subject, eventName, clubName)]
  }
}
