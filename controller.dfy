/** The event controller over an in-memory store: the event collection, the user collection
    and an outbox of approval-request emails. Every awaited database call is one sequential
    step; a step that throws ends the request and leaves the earlier writes in place. */
module EventController {
  import opened EventModel
  import opened FanOut
  import opened Listing

  /** Why a request ended with an error response. */
  datatype Failure =
    | NoUpload                  // no file, so `fileUrl.url` reads a property of undefined
    | CastFailed                // `isPayment` is not a boolean the schema can cast
    | CreatorMissing            // no user record for the caller
    | ApproverMissing(index: nat) // no user record for the approver at this list position

  datatype Outcome<T> = Ok(value: T) | NotFound | Failed(failure: Failure)

  class Store {
    var events: map<ObjectId, Event>
    /** The collection's natural order: ids in the order their events were saved. */
    var order: seq<ObjectId>
    /** The id the next saved event receives. */
    var nextId: ObjectId
    var users: map<ObjectId, User>
    /** Approval-request emails handed to the mail transport, oldest first. */
    var outbox: seq<Mail>
    const defaults: SchemaDefaults

    ghost predicate Valid()
      reads this
    {
      && (forall i | 0 <= i < |order| :: order[i] in events)
      && (forall id | id in events :: id in order && id < nextId)
      && (forall i, j | 0 <= i < j < |order| :: order[i] != order[j])
      && (forall id | id in events :: PaymentConsistent(events[id].payment))
    }

    constructor (users: map<ObjectId, User>, defaults: SchemaDefaults)
      ensures Valid()
      ensures this.users == users && this.defaults == defaults
      ensures events == map[] && order == [] && outbox == []
    {
      this.users := users;
      this.defaults := defaults;
      events, order, nextId, outbox := map[], [], 0, [];
    }

    /** `Event.find({'parent.id': owner})`: the owner's events in store order. */
    function Find(owner: ObjectId): seq<Event>
      reads this
      requires Valid()
    {
      OwnedBy(Records(order, events), owner)
    }

    /** The ids of the stored events of `owner`. */
    ghost function OwnedStored(owner: ObjectId): set<ObjectId>
      reads this
    {
      set id | id in events && events[id].parent.id == owner
    }

    /** The owner query returns exactly the stored events of `owner`. */
    lemma FindIsExact(owner: ObjectId)
      requires Valid()
      ensures forall e :: e in Find(owner) <==> e.parent.id == owner && exists id :: id in events && events[id] == e
    {
      RecordsCover(order, events);
    }

    /** The owner query returns one event per stored id of `owner`. */
    lemma FindCount(owner: ObjectId)
      requires Valid()
      ensures |Find(owner)| == |OwnedStored(owner)|
    {
      OwnedByCount(order, events, owner);
      assert OwnedIds(order, events, owner) == OwnedStored(owner);
    }

    /** The three lists of the event list hold as many events as the owner has stored ids. */
    lemma ListSizes(owner: ObjectId)
      requires Valid()
      ensures |Select(Find(owner), Bucket.Published)| + |Select(Find(owner), Bucket.Approved)|
              + |Select(Find(owner), Bucket.ApprovalPending)| == |OwnedStored(owner)|
    {
      PartitionIsExact(Find(owner));
      FindCount(owner);
    }

    /** `getEventById`: the stored event, or not-found. */
    function GetEventById(id: ObjectId): (r: Outcome<Event>)
      reads this
      ensures r.Ok? <==> id in events
      ensures r.Ok? ==> r.value == events[id]
      ensures !r.Ok? ==> r == NotFound
    {
      if id in events then Ok(events[id]) else NotFound
    }

    /** `getEventList`: the owner's events split by the precedence chain into three lists,
        each in store order. */
    method GetEventList(owner: ObjectId) returns (published: seq<Event>, approved: seq<Event>, approvalPending: seq<Event>)
      requires Valid()
      ensures published == Select(Find(owner), Bucket.Published)
      ensures approved == Select(Find(owner), Bucket.Approved)
      ensures approvalPending == Select(Find(owner), Bucket.ApprovalPending)
      ensures forall e :: e in published <==> e in Find(owner) && e.isPublished
      ensures forall e :: e in approved <==> e in Find(owner) && !e.isPublished && e.isApproved
      ensures forall e :: e in approvalPending <==> e in Find(owner) && !e.isPublished && !e.isApproved
      ensures multiset(published) + multiset(approved) + multiset(approvalPending) == multiset(Find(owner))
    {
      var found := Find(owner);
      published, approved, approvalPending := [], [], [];
      var i := 0;
      while i < |found|
        invariant 0 <= i <= |found|
        invariant published == Select(found[..i], Bucket.Published)
        invariant approved == Select(found[..i], Bucket.Approved)
        invariant approvalPending == Select(found[..i], Bucket.ApprovalPending)
      {
        var e := found[i];
        assert found[..i + 1] == found[..i] + [e];
        SelectSnoc(found[..i], e, Bucket.Published);
        SelectSnoc(found[..i], e, Bucket.Approved);
        SelectSnoc(found[..i], e, Bucket.ApprovalPending);
        if e.isPublished {
          assert BucketOf(e) == Bucket.Published;
          published := published + [e];
        } else if e.isApproved {
          assert BucketOf(e) == Bucket.Approved;
          approved := approved + [e];
        } else if !e.isApproved {
          assert BucketOf(e) == Bucket.ApprovalPending;
          approvalPending := approvalPending + [e];
        }
        i := i + 1;
      }
      assert found[..i] == found;
      PartitionIsExact(found);
      SelectMembers(found, Bucket.Published);
      SelectMembers(found, Bucket.Approved);
      SelectMembers(found, Bucket.ApprovalPending);
    }

    /** `createEvent`. Saves the event, pushes the summary onto the creator's `eventsCreated`,
        then onto the `approvalsRequested` of each listed approver in turn, then mails each
        listed approver. A missing record ends the request at that step. */
    method CreateEvent(caller: Caller, form: Form, approval: seq<ApprovalRef>, upload: Option<Upload>)
      returns (r: Outcome<ObjectId>)
      requires Valid()
      modifies this
      ensures Valid()
      // No upload or an uncastable flag: the request fails before the save.
      ensures upload.None? ==> r == Failed(NoUpload) && unchanged(this)
      ensures upload.Some? && PaymentOf(form.isPayment, form.amount).None?
              ==> r == Failed(CastFailed) && unchanged(this)
      // Otherwise the event is saved under a fresh id, whatever happens next.
      ensures upload.Some? && PaymentOf(form.isPayment, form.amount).Some? ==>
              var id := old(nextId);
              && id !in old(events)
              && events == old(events)[id := NewEvent(caller, form, approval, ThumbnailOf(upload.value),
                                                     PaymentOf(form.isPayment, form.amount).value, defaults)]
              && order == old(order) + [id]
              && nextId == old(nextId) + 1
              && Records(order, events) == old(Records(order, events)) + [events[id]]
      // No record for the caller: only the event is written.
      ensures r == Failed(CreatorMissing) <==>
              upload.Some? && PaymentOf(form.isPayment, form.amount).Some? && caller.id !in old(users)
      ensures r == Failed(CreatorMissing) ==> users == old(users) && outbox == old(outbox)
      // Create never answers not-found, and reports a missing upload only when there is none.
      ensures !r.NotFound?
      ensures upload.Some? ==> r != Failed(NoUpload)
      ensures upload.Some? && PaymentOf(form.isPayment, form.amount).Some? ==> r != Failed(CastFailed)
      // A listed approver without a record ends the request with ApproverMissing.
      ensures upload.Some? && PaymentOf(form.isPayment, form.amount).Some? && caller.id in old(users)
              && !AllKnown(old(users), IdsOf(approval))
              ==> r.Failed? && r.failure.ApproverMissing?
      // No record for approver k: the creator and approvers before k have their entry, no email is sent.
      ensures r.Failed? && r.failure.ApproverMissing? ==>
              var k, ids := r.failure.index, IdsOf(approval);
              && caller.id in old(users)
              && k < |ids| && ids[k] !in old(users) && AllKnown(old(users), ids[..k])
              && users == AssignAll(WithCreated(old(users), caller.id, Entry(caller)), ids[..k], Entry(caller))
              && outbox == old(outbox)
      // Success: every approver has its entry, then every approver is mailed once per listing.
      ensures r.Ok? <==> upload.Some? && PaymentOf(form.isPayment, form.amount).Some?
                         && caller.id in old(users) && AllKnown(old(users), IdsOf(approval))
      ensures r.Ok? ==>
              && r.value == old(nextId)
              && users == AfterCreate(old(users), caller.id, IdsOf(approval), Entry(caller))
              && outbox == old(outbox) + Notices(users, IdsOf(approval), form.name, caller.name)
    {
      if upload.None? {
        return Failed(NoUpload);
      }
      var payment := PaymentOf(form.isPayment, form.amount);
      if payment.None? {
        return Failed(CastFailed);
      }
      var event := NewEvent(caller, form, approval, ThumbnailOf(upload.value), payment.value, defaults);
      var id := Save(event);

      var entry := Entry(caller);
      if caller.id !in users {
        return Failed(CreatorMissing);
      }
      users := WithCreated(users, caller.id, entry);

      var ids := IdsOf(approval);
      var missing := AssignApprovers(ids, entry);
      if missing.Some? {
        return Failed(ApproverMissing(missing.value));
      }
      MailApprovers(ids, form.name, caller.name);
      return Ok(id);
    }

    /** `event.save()`: stores a new event under a fresh id, at the end of the natural order. */
    method Save(event: Event) returns (id: ObjectId)
      requires Valid()
      requires PaymentConsistent(event.payment)
      modifies this`events, this`order, this`nextId
      ensures Valid()
      ensures id == old(nextId) && id !in old(events) && nextId == old(nextId) + 1
      ensures events == old(events)[id := event] && order == old(order) + [id]
      ensures Records(order, events) == old(Records(order, events)) + [event]
    {
      id := nextId;
      RecordsAppend(order, events, id, event);
      events := events[id := event];
      order := order + [id];
      nextId := nextId + 1;
    }

    /** The assignment loop of `createEvent`: pushes `entry` onto the `approvalsRequested` of
        each id in turn, stopping at the first id without a record. */
    method AssignApprovers(ids: seq<ObjectId>, entry: Summary) returns (missing: Option<nat>)
      modifies this`users
      ensures missing.None? <==> AllKnown(old(users), ids)
      ensures missing.None? ==> users == AssignAll(old(users), ids, entry)
      ensures missing.Some? ==>
              var k := missing.value;
              && k < |ids| && ids[k] !in old(users) && AllKnown(old(users), ids[..k])
              && users == AssignAll(old(users), ids[..k], entry)
    {
      var i := 0;
      while i < |ids|
        invariant 0 <= i <= |ids|
        invariant AllKnown(old(users), ids[..i])
        invariant users == AssignAll(old(users), ids[..i], entry)
      {
        var approver := ids[i];
        if approver !in users {
          return Some(i);
        }
        users := users[approver := users[approver].(approvalsRequested := users[approver].approvalsRequested + [entry])];
        assert ids[..i + 1][..i] == ids[..i];
        i := i + 1;
      }
      assert ids[..i] == ids;
      return None;
    }

    /** The mail loop of `createEvent`: one email to each listed approver, in list order. */
    method MailApprovers(ids: seq<ObjectId>, eventName: string, clubName: string)
      requires AllKnown(users, ids)
      modifies this`outbox
      ensures outbox == old(outbox) + Notices(users, ids, eventName, clubName)
    {
      var i := 0;
      while i < |ids|
        invariant 0 <= i <= |ids|
        invariant outbox == old(outbox) + Notices(users, ids[..i], eventName, clubName)
      {
        outbox := outbox + [Mail(users[ids[i]].email, Subject, eventName, clubName)];
        assert ids[..i + 1][..i] == ids[..i];
        i := i + 1;
      }
      assert ids[..i] == ids;
    }

    /** `updateEvent`: replaces the descriptive and payment fields of an existing event.
        The event's status is not consulted and the caller need not own the event. */
    method UpdateEvent(id: ObjectId, form: Form, upload: Option<Upload>) returns (r: Outcome<Event>)
      requires Valid()
      modifies this`events
      ensures Valid()
      ensures upload.None? ==> r == Failed(NoUpload) && events == old(events)
      ensures upload.Some? && PaymentOf(form.isPayment, form.amount).None?
              ==> r == Failed(CastFailed) && events == old(events)
      ensures upload.Some? && PaymentOf(form.isPayment, form.amount).Some? && id !in old(events)
              ==> r == NotFound && events == old(events)
      ensures upload.Some? && PaymentOf(form.isPayment, form.amount).Some? && id in old(events) ==>
              var e := Patched(old(events)[id], form, ThumbnailOf(upload.value), PaymentOf(form.isPayment, form.amount).value);
              r == Ok(e) && events == old(events)[id := e]
    {
      if upload.None? {
        return Failed(NoUpload);
      }
      var payment := PaymentOf(form.isPayment, form.amount);
      if payment.None? {
        return Failed(CastFailed);
      }
      if id !in events {
        return NotFound;
      }
      var e := Patched(events[id], form, ThumbnailOf(upload.value), payment.value);
      events := events[id := e];
      return Ok(e);
    }
  }
}
