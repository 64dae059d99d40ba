/** The read side of the controller: the owner query behind the event list and the three-way
    split of its result into `published`, `approved` and `approvalPending`. */
module Listing {
  import opened EventModel

  datatype Bucket = Published | Approved | ApprovalPending

  /** The precedence chain of the list loop: `isPublished` first, then `isApproved`,
      everything else pending. */
  function BucketOf(e: Event): (b: Bucket)
    ensures b == Published <==> e.isPublished
    ensures b == Approved <==> !e.isPublished && e.isApproved
    ensures b == ApprovalPending <==> !e.isPublished && !e.isApproved
  {
    if e.isPublished then Published
    else if e.isApproved then Approved
    else ApprovalPending
  }

  /** `a` is `b` with some elements left out, the rest kept in order. */
  ghost predicate IsSubsequence(a: seq<Event>, b: seq<Event>)
    decreases |b|
  {
    a == [] ||
    (b != [] &&
      ((a[|a| - 1] == b[|b| - 1] && IsSubsequence(a[..|a| - 1], b[..|b| - 1])) ||
       IsSubsequence(a, b[..|b| - 1])))
  }

  /** The stored events in the store's natural order. */
  function Records(order: seq<ObjectId>, events: map<ObjectId, Event>): (r: seq<Event>)
    requires forall i | 0 <= i < |order| :: order[i] in events
    ensures |r| == |order|
    ensures forall i | 0 <= i < |order| :: r[i] == events[order[i]]
  {
    seq(|order|, i requires 0 <= i < |order| => events[order[i]])
  }

  /** When the order lists every stored id, the records are exactly the stored events. */
  lemma RecordsCover(order: seq<ObjectId>, events: map<ObjectId, Event>)
    requires forall i | 0 <= i < |order| :: order[i] in events
    requires forall id | id in events :: id in order
    ensures forall e :: e in Records(order, events) <==> exists id :: id in events && events[id] == e
  {
    var all := Records(order, events);
    forall e | e in all ensures exists id :: id in events && events[id] == e {
      var i :| 0 <= i < |all| && all[i] == e;
      assert events[order[i]] == e;
    }
    forall e | (exists id :: id in events && events[id] == e) ensures e in all {
      var id :| id in events && events[id] == e;
      var i :| 0 <= i < |order| && order[i] == id;
      assert all[i] == e;
    }
  }

  /** Saving a record under a new id puts it at the end of the natural order. */
  lemma RecordsAppend(order: seq<ObjectId>, events: map<ObjectId, Event>, id: ObjectId, e: Event)
    requires forall i | 0 <= i < |order| :: order[i] in events
    requires id !in events
    ensures Records(order + [id], events[id := e]) == Records(order, events) + [e]
  {
    var lhs, rhs := Records(order + [id], events[id := e]), Records(order, events) + [e];
    forall i | 0 <= i < |lhs| ensures lhs[i] == rhs[i] {
      if i < |order| {
        assert (order + [id])[i] == order[i];
      }
    }
  }

  /** The result of the query on `parent.id`: the events of `owner`, in store order. */
  function OwnedBy(es: seq<Event>, owner: ObjectId): (r: seq<Event>)
    ensures forall e :: e in r <==> e in es && e.parent.id == owner
    decreases |es|
  {
    if es == [] then []
    else
      var last := es[|es| - 1];
      OwnedBy(es[..|es| - 1], owner) + (if last.parent.id == owner then [last] else [])
  }

  /** The query keeps every copy of an owned event and no copy of any other. */
  lemma {:induction false} OwnedByMultiset(es: seq<Event>, owner: ObjectId)
    ensures forall e :: multiset(OwnedBy(es, owner))[e] == if e.parent.id == owner then multiset(es)[e] else 0
    decreases |es|
  {
    if es != [] {
      var init := es[..|es| - 1];
      OwnedByMultiset(init, owner);
      assert es == init + [es[|es| - 1]];
    }
  }

  /** The ids of `order` whose stored event belongs to `owner`. */
  ghost function OwnedIds(order: seq<ObjectId>, events: map<ObjectId, Event>, owner: ObjectId): (r: set<ObjectId>)
    requires forall i | 0 <= i < |order| :: order[i] in events
    ensures forall id :: id in r <==> id in order && id in events && events[id].parent.id == owner
    decreases |order|
  {
    if order == [] then {}
    else
      var init, last := order[..|order| - 1], order[|order| - 1];
      assert order == init + [last];
      OwnedIds(init, events, owner) + (if events[last].parent.id == owner then {last} else {})
  }

  /** Reading one more id appends its event to the records. */
  lemma RecordsSnoc(order: seq<ObjectId>, events: map<ObjectId, Event>)
    requires order != [] && forall i | 0 <= i < |order| :: order[i] in events
    ensures Records(order, events) == Records(order[..|order| - 1], events) + [events[order[|order| - 1]]]
  {
  }

  /** In a list of distinct ids the last one does not occur earlier. */
  lemma LastIsNew(order: seq<ObjectId>)
    requires order != []
    requires forall i, j | 0 <= i < j < |order| :: order[i] != order[j]
    ensures order[|order| - 1] !in order[..|order| - 1]
  {
  }

  /** With every id listed once, the owner query returns one event per stored id of the
      owner: its size is the number of such ids. */
  lemma {:induction false} OwnedByCount(order: seq<ObjectId>, events: map<ObjectId, Event>, owner: ObjectId)
    requires forall i | 0 <= i < |order| :: order[i] in events
    requires forall i, j | 0 <= i < j < |order| :: order[i] != order[j]
    ensures |OwnedBy(Records(order, events), owner)| == |OwnedIds(order, events, owner)|
    decreases |order|
  {
    if order != [] {
      var init, last := order[..|order| - 1], order[|order| - 1];
      var e, before := events[last], OwnedIds(init, events, owner);
      OwnedByCount(init, events, owner);
      RecordsSnoc(order, events);
      OwnedByAppend(Records(init, events), e, owner);
      assert |OwnedBy(Records(order, events), owner)|
             == |OwnedBy(Records(init, events), owner)| + (if e.parent.id == owner then 1 else 0);
      LastIsNew(order);
      assert OwnedIds(order, events, owner) == before + (if e.parent.id == owner then {last} else {});
      assert last !in before;
    }
  }

  /** The events of one bucket, in the order of `es`. */
  function Select(es: seq<Event>, b: Bucket): seq<Event>
    decreases |es|
  {
    if es == [] then []
    else
      var last := es[|es| - 1];
      Select(es[..|es| - 1], b) + (if BucketOf(last) == b then [last] else [])
  }

  /** A bucket holds exactly the events of `es` of its kind. */
  lemma {:induction false} SelectMembers(es: seq<Event>, b: Bucket)
    ensures forall e :: e in Select(es, b) <==> e in es && BucketOf(e) == b
    decreases |es|
  {
    if es != [] {
      var init := es[..|es| - 1];
      SelectMembers(init, b);
      assert es == init + [es[|es| - 1]];
    }
  }

  /** Appending an event to the input appends it to its own bucket only. */
  lemma SelectSnoc(es: seq<Event>, e: Event, b: Bucket)
    ensures Select(es + [e], b) == Select(es, b) + (if BucketOf(e) == b then [e] else [])
  {
    assert (es + [e])[..|es + [e]| - 1] == es;
  }

  /** Every event of `es` lands in exactly one bucket, as often as it occurs in `es`. */
  lemma {:induction false} PartitionIsExact(es: seq<Event>)
    ensures multiset(Select(es, Published)) + multiset(Select(es, Approved)) + multiset(Select(es, ApprovalPending))
            == multiset(es)
    ensures |Select(es, Published)| + |Select(es, Approved)| + |Select(es, ApprovalPending)| == |es|
  {
    if es != [] {
      var init := es[..|es| - 1];
      assert es == init + [es[|es| - 1]];
      PartitionIsExact(init);
    }
    var p, a, n := Select(es, Published), Select(es, Approved), Select(es, ApprovalPending);
    assert |multiset(p + a + n)| == |multiset(es)|;
  }

  /** A bucket keeps the order of the events it was filled from. */
  lemma {:induction false} SelectIsSubsequence(es: seq<Event>, b: Bucket)
    ensures IsSubsequence(Select(es, b), es)
    decreases |es|
  {
    if es != [] {
      var init, last := es[..|es| - 1], es[|es| - 1];
      var r, prev := Select(es, b), Select(init, b);
      SelectIsSubsequence(init, b);
      if BucketOf(last) == b {
        assert r == prev + [last];
        assert r[|r| - 1] == last && r[..|r| - 1] == prev;
      } else {
        assert r == prev;
      }
    }
  }

  /** The owner query keeps store order too. */
  lemma {:induction false} OwnedByIsSubsequence(es: seq<Event>, owner: ObjectId)
    ensures IsSubsequence(OwnedBy(es, owner), es)
    decreases |es|
  {
    if es != [] {
      var init, last := es[..|es| - 1], es[|es| - 1];
      var r, prev := OwnedBy(es, owner), OwnedBy(init, owner);
      OwnedByIsSubsequence(init, owner);
      if last.parent.id == owner {
        assert r == prev + [last];
        assert r[|r| - 1] == last && r[..|r| - 1] == prev;
      } else {
        assert r == prev;
      }
    }
  }

  /** The owner query of a store grown by one record is the old answer, plus that record
      when it belongs to the owner. */
  lemma {:induction false} OwnedByAppend(es: seq<Event>, e: Event, owner: ObjectId)
    ensures OwnedBy(es + [e], owner) == OwnedBy(es, owner) + (if e.parent.id == owner then [e] else [])
  {
    assert (es + [e])[..|es + [e]| - 1] == es;
  }

  /** A newly saved event shows up last in its owner's list, in the bucket its flags select,
      and the other two buckets are as before. */
  lemma {:induction false} SavedEventListed(es: seq<Event>, e: Event, b: Bucket)
    ensures Select(OwnedBy(es + [e], e.parent.id), b)
            == Select(OwnedBy(es, e.parent.id), b) + (if BucketOf(e) == b then [e] else [])
  {
    OwnedByAppend(es, e, e.parent.id);
    var xs := OwnedBy(es, e.parent.id);
    assert (xs + [e])[..|xs + [e]| - 1] == xs;
  }

  /** An edit neither moves an event to another bucket nor to another owner. */
  lemma PatchedKeepsListing(e: Event, form: Form, thumbnail: Option<string>, payment: Payment)
    ensures BucketOf(Patched(e, form, thumbnail, payment)) == BucketOf(e)
    ensures Patched(e, form, thumbnail, payment).parent.id == e.parent.id
  {
  }
}
