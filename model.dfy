/** Records handled by the event controller, and the pure values it builds from a request:
    the new event record, the payment sub-document, the thumbnail and the field patch of an edit. */
module EventModel {

  /** MongoDB object ids. Events and users live in separate collections. */
  type ObjectId = nat

  datatype Option<T> = None | Some(value: T)

  /** The authenticated user of a request (`req.user`). */
  datatype Caller = Caller(id: ObjectId, name: string, thumbnail: string)

  /** Snapshot of the creating user kept inside the event (`parent`). */
  datatype Parent = Parent(id: ObjectId, name: string, thumbnail: string)

  /** One element of the request's approval list; the controller reads only its `id`. */
  datatype ApprovalRef = ApprovalRef(id: ObjectId, name: string)

  datatype Payment = Payment(isPayment: bool, amount: int)

  datatype Event = Event(
    parent: Parent,
    name: string,
    description: string,
    thumbnail: Option<string>,
    date: string,
    isSelection: bool,
    payment: Payment,
    approval: seq<ApprovalRef>,
    isPending: bool,
    isApproved: bool,
    isPublished: bool)

  /** Entry of a user's `eventsCreated` or `approvalsRequested` list. */
  datatype Summary = Summary(id: ObjectId, name: string, thumbnail: string, status: string, isApproved: bool)

  datatype User = User(
    name: string,
    thumbnail: string,
    email: string,
    eventsCreated: seq<Summary>,
    approvalsRequested: seq<Summary>)

  /** Text fields of a create or edit request. The request is multipart (it carries the
      thumbnail file), so `isPayment` arrives as the raw form text; the other fields are
      taken after the schema has cast them. */
  datatype Form = Form(
    name: string,
    description: string,
    date: string,
    isSelection: bool,
    isPayment: string,
    amount: int)

  /** What the image upload resolved to; the empty url stands for a falsy `url`. */
  datatype Upload = Upload(url: string)

  /** Schema defaults of `isApproved` and `isPublished`, which the controller never sets. */
  datatype SchemaDefaults = SchemaDefaults(isApproved: bool, isPublished: bool)

  // ---------------------------------------------------------------------------
  // Payment

  /** JavaScript truthiness of a string. */
  predicate Truthy(s: string)
  {
    s != ""
  }

  /** The schema's boolean cast of a text value; None is a cast error. */
  function CastBoolean(s: string): Option<bool>
  {
    if s == "true" || s == "1" || s == "yes" then Some(true)
    else if s == "false" || s == "0" || s == "no" then Some(false)
    else None
  }

  /** A payment without `isPayment` charges nothing. */
  predicate PaymentConsistent(p: Payment)
  {
    !p.isPayment ==> p.amount == 0
  }

  /** The payment sub-document as written: the amount is chosen by the truthiness of the raw
      text, while the stored flag is the schema's cast of that text. */
  function PaymentAsWritten(isPayment: string, amount: int): Option<Payment>
  {
    match CastBoolean(isPayment)
    case None => None
    case Some(flag) => Some(Payment(flag, if Truthy(isPayment) then amount else 0))
  }

  /** Counterexample: the text "false" is truthy, so the amount survives while the
      stored flag says there is no payment. */
  lemma PaymentAsWrittenKeepsAmount()
    ensures PaymentAsWritten("false", 100) == Some(Payment(false, 100))
    ensures !PaymentConsistent(PaymentAsWritten("false", 100).value)
  {
  }

  /** The payment sub-document with the amount chosen by the cast flag. */
  function PaymentOf(isPayment: string, amount: int): (p: Option<Payment>)
    ensures p.Some? <==> CastBoolean(isPayment).Some?
    ensures p.Some? ==> p.value.isPayment == CastBoolean(isPayment).value
    ensures p.Some? ==> PaymentConsistent(p.value)
    ensures p.Some? && p.value.isPayment ==> p.value.amount == amount
  {
    match CastBoolean(isPayment)
    case None => None
    case Some(flag) => Some(Payment(flag, if flag then amount else 0))
  }

  /** The two payment definitions disagree exactly on a false flag with a non-zero amount. */
  lemma PaymentFixDiffers(isPayment: string, amount: int)
    ensures PaymentAsWritten(isPayment, amount) != PaymentOf(isPayment, amount)
            <==> CastBoolean(isPayment) == Some(false) && amount != 0
  {
  }

  // ---------------------------------------------------------------------------
  // Records built by create and edit

  /** `fileUrl.url ? fileUrl.url : null` */
  function ThumbnailOf(upload: Upload): (t: Option<string>)
    ensures t.Some? <==> upload.url != ""
    ensures t.Some? ==> t.value == upload.url
  {
    if upload.url != "" then Some(upload.url) else None
  }

  /** The event record a create request saves. */
  function NewEvent(caller: Caller, form: Form, approval: seq<ApprovalRef>, thumbnail: Option<string>,
                    payment: Payment, defaults: SchemaDefaults): (e: Event)
    ensures e.isPending
    ensures e.parent.id == caller.id && e.parent.name == caller.name && e.parent.thumbnail == caller.thumbnail
    ensures e.approval == approval
    ensures e.payment == payment && e.thumbnail == thumbnail
    ensures e.isApproved == defaults.isApproved && e.isPublished == defaults.isPublished
  {
    Event(Parent(caller.id, caller.name, caller.thumbnail),
          form.name, form.description, thumbnail, form.date, form.isSelection,
          payment, approval, true, defaults.isApproved, defaults.isPublished)
  }

  /** The summary entry a create request appends to the owner and to every approver.
      Its id is the creator's id, not the event's. */
  function Entry(caller: Caller): (s: Summary)
    ensures s.id == caller.id && s.name == caller.name && s.thumbnail == caller.thumbnail
    ensures s.status == "PENDING" && !s.isApproved
  {
    Summary(caller.id, caller.name, caller.thumbnail, "PENDING", false)
  }

  /** The event after an edit: descriptive and payment fields replaced, nothing else touched. */
  function Patched(e: Event, form: Form, thumbnail: Option<string>, payment: Payment): (r: Event)
    ensures r.parent == e.parent && r.approval == e.approval
    ensures r.isPending == e.isPending && r.isApproved == e.isApproved && r.isPublished == e.isPublished
    ensures r.name == form.name && r.description == form.description && r.date == form.date
    ensures r.isSelection == form.isSelection && r.thumbnail == thumbnail && r.payment == payment
  {
    e.(name := form.name, description := form.description, thumbnail := thumbnail,
       date := form.date, isSelection := form.isSelection, payment := payment)
  }

  /** An edit depends only on the request, not on the fields it overwrites: editing twice
      is the same as applying the second edit alone. */
  lemma PatchLastWins(e: Event, f1: Form, t1: Option<string>, p1: Payment,
                      f2: Form, t2: Option<string>, p2: Payment)
    ensures Patched(Patched(e, f1, t1, p1), f2, t2, p2) == Patched(e, f2, t2, p2)
  {
  }
}
