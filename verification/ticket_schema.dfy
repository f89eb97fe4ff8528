/**
  The ticket document: its enumerations, the schema's field constraints as a
  validation of a draft document (trim setters, required fields, minimum
  lengths, enums and defaults), and the derived "overdue" rule.
 */
module TicketSchema {
  import opened Common
  import opened Text

  datatype Category = Technical | Billing | General
  datatype Priority = Low | Medium | High
  /** The stored spelling of the middle state is `inProgress`. */
  datatype Status = Open | InProgress | Resolved

  const SubjectMinLength: nat := 3
  const DescriptionMinLength: nat := 10
  /** 24 hours in milliseconds, the age after which an open ticket is overdue. */
  const OverdueAfterMs: int := 24 * 60 * 60 * 1000
  const MsPerHour: real := 3600000.0

  function CategoryName(c: Category): (s: string)
  {
    match c
    case Technical => "Technical"
    case Billing => "Billing"
    case General => "General"
  }

  /** The `enum` validator of `category`: exact, case-sensitive match. */
  function ParseCategory(s: string): (r: Option<Category>)
    ensures r.Some? ==> CategoryName(r.value) == s
  {
    if s == "Technical" then Some(Technical)
    else if s == "Billing" then Some(Billing)
    else if s == "General" then Some(General)
    else None
  }

  function PriorityName(p: Priority): (s: string)
  {
    match p
    case Low => "Low"
    case Medium => "Medium"
    case High => "High"
  }

  /** The `enum` validator of `priority`. */
  function ParsePriority(s: string): (r: Option<Priority>)
    ensures r.Some? ==> PriorityName(r.value) == s
  {
    if s == "Low" then Some(Low)
    else if s == "Medium" then Some(Medium)
    else if s == "High" then Some(High)
    else None
  }

  function StatusName(st: Status): (s: string)
  {
    match st
    case Open => "Open"
    case InProgress => "inProgress"
    case Resolved => "Resolved"
  }

  /** The `enum` validator of `status`; `"In Progress"` is not a legal value. */
  function ParseStatus(s: string): (r: Option<Status>)
    ensures r.Some? ==> StatusName(r.value) == s
  {
    if s == "Open" then Some(Open)
    else if s == "inProgress" then Some(InProgress)
    else if s == "Resolved" then Some(Resolved)
    else None
  }

  /** The spellings each `enum` validator admits. */
  predicate LegalCategory(s: string) {
    s == "Technical" || s == "Billing" || s == "General"
  }

  predicate LegalPriority(s: string) {
    s == "Low" || s == "Medium" || s == "High"
  }

  predicate LegalStatus(s: string) {
    s == "Open" || s == "inProgress" || s == "Resolved"
  }

  /** Each enum's stored spelling parses back to it, and a spelling that
      parses is the stored spelling of what it parses to. */
  lemma EnumNamesRoundTrip(c: Category, p: Priority, st: Status, s: string)
    ensures ParseCategory(CategoryName(c)) == Some(c)
    ensures ParsePriority(PriorityName(p)) == Some(p)
    ensures ParseStatus(StatusName(st)) == Some(st)
    ensures ParseCategory(s).Some? <==> LegalCategory(s)
    ensures ParsePriority(s).Some? <==> LegalPriority(s)
    ensures ParseStatus(s).Some? <==> LegalStatus(s)
  {
  }

  /** A stored ticket. `createdAt` is the creation time in milliseconds. */
  datatype Ticket = Ticket(
    id: Id,
    subject: string,
    description: string,
    category: Category,
    priority: Priority,
    status: Status,
    owner: Id,
    createdAt: int)

  /** What the schema guarantees of every stored ticket beyond its types:
      both texts are trimmed and long enough (lengths in UTF-16 units). */
  predicate ValidTicket(t: Ticket) {
    && IsTrimmed(t.subject) && Utf16Length(t.subject) >= SubjectMinLength
    && IsTrimmed(t.description) && Utf16Length(t.description) >= DescriptionMinLength
  }

  /** A document before validation: every field as the request supplied it,
      absent fields as `None`. */
  datatype Draft = Draft(
    subject: Option<string>,
    description: Option<string>,
    category: Option<string>,
    priority: Option<string>,
    status: Option<string>,
    owner: Option<Id>)

  datatype Field = SubjectField | DescriptionField | CategoryField | PriorityField | StatusField | OwnerField

  /** A trimmed text field that is `required` and has a `minlength`: the
      trim setter runs first, then `required` refuses the empty string and
      `minlength` refuses anything shorter than `minLength`. */
  function CheckText(field: Option<string>, minLength: nat): (r: Option<string>)
    ensures r.Some? <==> field.Some? && Trim(field.value) != [] && Utf16Length(Trim(field.value)) >= minLength
    ensures r.Some? ==> r.value == Trim(field.value) && IsTrimmed(r.value)
  {
    match field
    case None => None
    case Some(s) =>
      var t := Trim(s);
      if t != [] && Utf16Length(t) >= minLength then Some(t) else None
  }

  function CheckCategory(field: Option<string>): (r: Option<Category>)
    ensures r.Some? <==> field.Some? && LegalCategory(field.value)
  {
    match field
    case None => None
    case Some(s) => ParseCategory(s)
  }

  /** `priority` is required but defaults to `Medium`, so only a present,
      non-enum value fails. */
  function CheckPriority(field: Option<string>): (r: Option<Priority>)
    ensures field.None? ==> r == Some(Medium)
    ensures field.Some? ==> (r.Some? <==> LegalPriority(field.value))
  {
    match field
    case None => Some(Medium)
    case Some(s) => ParsePriority(s)
  }

  /** `status` defaults to `Open`. */
  function CheckStatus(field: Option<string>): (r: Option<Status>)
    ensures field.None? ==> r == Some(Open)
    ensures field.Some? ==> (r.Some? <==> LegalStatus(field.value))
  {
    match field
    case None => Some(Open)
    case Some(s) => ParseStatus(s)
  }

  /** Whether the validator of field `f` refuses the document `d`. */
  predicate Fails(d: Draft, f: Field) {
    match f
    case SubjectField => CheckText(d.subject, SubjectMinLength).None?
    case DescriptionField => CheckText(d.description, DescriptionMinLength).None?
    case CategoryField => CheckCategory(d.category).None?
    case PriorityField => CheckPriority(d.priority).None?
    case StatusField => CheckStatus(d.status).None?
    case OwnerField => d.owner.None?
  }

  const AllFields: set<Field> :=
    {SubjectField, DescriptionField, CategoryField, PriorityField, StatusField, OwnerField}

  /** Whether every validator accepts the document `d`. */
  predicate Passes(d: Draft) {
    && CheckText(d.subject, SubjectMinLength).Some?
    && CheckText(d.description, DescriptionMinLength).Some?
    && CheckCategory(d.category).Some?
    && CheckPriority(d.priority).Some?
    && CheckStatus(d.status).Some?
    && d.owner.Some?
  }

  /** A document fails validation exactly when some field's validator fails. */
  lemma SomeFieldFails(d: Draft)
    ensures !Passes(d) <==> exists f :: f in AllFields && Fails(d, f)
  {
    if !Passes(d) {
      if CheckText(d.subject, SubjectMinLength).None? {
        assert Fails(d, SubjectField);
      } else if CheckText(d.description, DescriptionMinLength).None? {
        assert Fails(d, DescriptionField);
      } else if CheckCategory(d.category).None? {
        assert Fails(d, CategoryField);
      } else if CheckPriority(d.priority).None? {
        assert Fails(d, PriorityField);
      } else if CheckStatus(d.status).None? {
        assert Fails(d, StatusField);
      } else {
        assert Fails(d, OwnerField);
      }
    }
  }

  /** The set of fields whose validators fail. */
  function Errors(d: Draft): set<Field> {
    set f | f in AllFields && Fails(d, f)
  }

  /** `Errors` holds exactly the failing fields, so it is empty exactly when
      the document passes every validator. */
  lemma ErrorsExact(d: Draft)
    ensures forall f :: f in Errors(d) <==> Fails(d, f)
    ensures Errors(d) == {} <==> Passes(d)
  {
    forall f: Field
      ensures f in AllFields
    {
      match f
      case SubjectField =>
      case DescriptionField =>
      case CategoryField =>
      case PriorityField =>
      case StatusField =>
      case OwnerField =>
    }
    SomeFieldFails(d);
    if Errors(d) != {} {
      var f :| f in Errors(d);
    }
  }

  /** Validation on `create` or `save`: either every validator passes and the
      document is stored as a valid ticket carrying the trimmed texts, the
      supplied enum values or their defaults, and the draft's owner; or the
      failing fields are reported and nothing is stored. */
  function Validate(d: Draft, id: Id, createdAt: int): (r: Result<Ticket, set<Field>>)
    ensures r.Success? <==> Passes(d)
    ensures r.Failure? ==> r.error != {} && forall f :: f in r.error <==> Fails(d, f)
    ensures d.owner.None? ==> r.Failure? && OwnerField in r.error
    ensures d.category.None? ==> r.Failure? && CategoryField in r.error
    ensures r.Success? ==> ValidTicket(r.value)
    ensures r.Success? ==>
      && r.value.id == id && r.value.createdAt == createdAt
      && d.owner == Some(r.value.owner)
      && d.subject.Some? && r.value.subject == Trim(d.subject.value)
      && d.description.Some? && r.value.description == Trim(d.description.value)
      && d.category == Some(CategoryName(r.value.category))
      && d.priority.GetOr("Medium") == PriorityName(r.value.priority)
      && d.status.GetOr("Open") == StatusName(r.value.status)
  {
    var errors := Errors(d);
    ErrorsExact(d);
    if errors != {} then Failure(errors)
    else
      Success(Ticket(
        id,
        CheckText(d.subject, SubjectMinLength).value,
        CheckText(d.description, DescriptionMinLength).value,
        CheckCategory(d.category).value,
        CheckPriority(d.priority).value,
        CheckStatus(d.status).value,
        d.owner.value,
        createdAt))
  }

  /** A stored ticket seen as a document again (what `save` revalidates). */
  function ToDraft(t: Ticket): Draft {
    Draft(Some(t.subject), Some(t.description), Some(CategoryName(t.category)),
          Some(PriorityName(t.priority)), Some(StatusName(t.status)), Some(t.owner))
  }

  /** Validation accepts every valid ticket unchanged, and only valid ones:
      `ValidTicket` is exactly the schema's constraint on stored records. */
  lemma ValidTicketRoundTrip(t: Ticket)
    ensures ValidTicket(t) <==> Validate(ToDraft(t), t.id, t.createdAt) == Success(t)
  {
    if ValidTicket(t) {
      var d := ToDraft(t);
      TrimFixesTrimmed(t.subject);
      TrimFixesTrimmed(t.description);
      EnumNamesRoundTrip(t.category, t.priority, t.status, "");
      assert CheckText(d.subject, SubjectMinLength) == Some(t.subject);
      assert CheckText(d.description, DescriptionMinLength) == Some(t.description);
      assert CheckCategory(d.category) == Some(t.category);
      assert CheckPriority(d.priority) == Some(t.priority);
      assert CheckStatus(d.status) == Some(t.status);
      assert Passes(d);
    }
  }

  /** Elapsed time since creation in (fractional) hours, as `isOverdue`
      divides the millisecond difference by 1000 * 60 * 60. */
  function HoursSince(createdAt: int, now: int): real {
    (now - createdAt) as real / MsPerHour
  }

  /** `isOverdue`: still open and more than 24 hours old. In whole
      milliseconds the rule is a strict comparison with 24 hours. */
  function IsOverdue(t: Ticket, now: int): (b: bool)
    ensures b <==> t.status == Open && now - t.createdAt > OverdueAfterMs
  {
    assert HoursSince(t.createdAt, now) * MsPerHour == (now - t.createdAt) as real;
    t.status == Open && HoursSince(t.createdAt, now) > 24.0
  }
}
