/**
 * The two payload schemas of the issue tracker: the one a new issue must
 * satisfy (title and description) and the one a partial update must satisfy
 * (title, description and status, each optional).
 *
 * Each schema is modelled as its safe-parse: either the parsed payload or the
 * list of field errors, collected check by check in the order the schema
 * declares them (a string's minimum-length check, then its maximum-length
 * check; the title before the description before the status).
 */
module ValidationSchemas {
  import opened Wrappers

  /** The lifecycle tag of an issue. */
  datatype Status = Open | InProgress | Closed

  /** The wire spelling of a status, as the enum lists it. */
  function StatusName(s: Status): string
  {
    match s
    case Open => "OPEN"
    case InProgress => "IN_PROGRESS"
    case Closed => "CLOSED"
  }

  /** The three names the status enum lists. */
  predicate IsStatusName(name: string)
  {
    name == "OPEN" || name == "IN_PROGRESS" || name == "CLOSED"
  }

  /** The enum check: a string is a status exactly when it is one of the three names. */
  function ParseStatus(name: string): (r: Option<Status>)
    ensures r.Some? <==> IsStatusName(name)
    ensures r.Some? ==> StatusName(r.value) == name
  {
    if name == "OPEN" then Some(Open)
    else if name == "IN_PROGRESS" then Some(InProgress)
    else if name == "CLOSED" then Some(Closed)
    else None
  }

  /** Naming a status and parsing the name gives the status back. */
  lemma StatusNameRoundTrip(s: Status)
    ensures ParseStatus(StatusName(s)) == Some(s)
  {
  }

  /** The longest title either schema accepts. */
  const TitleMaxLength: nat := 255

  /** The messages the schemas attach to their minimum-length checks. */
  const TitleRequired: string := "Title is required."
  const DescriptionRequired: string := "Description is required."

  datatype Field = TitleField | DescriptionField | StatusField

  /** One failed check: a minimum length (with its message), a maximum length, or a value outside the enum. */
  datatype Violation =
    | TooSmall(minimum: nat, message: string)
    | TooBig(maximum: nat)
    | InvalidEnumValue(received: string)

  datatype FieldError = FieldError(field: Field, violation: Violation)

  /** The body of a create request. */
  datatype CreateIssueBody = CreateIssueBody(title: string, description: string)

  /** The body of an update request: every field may be absent; status arrives as a string. */
  datatype UpdateIssueBody = UpdateIssueBody(title: Option<string>, description: Option<string>, status: Option<string>)

  /** What a successful update parse yields: the status is now a Status. */
  datatype IssueUpdate = IssueUpdate(title: Option<string>, description: Option<string>, status: Option<Status>)

  /** The title rule shared by both schemas: at least one character, at most 255. */
  function TitleViolations(title: string): (vs: seq<Violation>)
    ensures vs == [] <==> 1 <= |title| <= TitleMaxLength
    ensures |title| == 0 ==> vs == [TooSmall(1, TitleRequired)]
    ensures |title| > TitleMaxLength ==> vs == [TooBig(TitleMaxLength)]
  {
    (if |title| < 1 then [TooSmall(1, TitleRequired)] else [])
    + (if |title| > TitleMaxLength then [TooBig(TitleMaxLength)] else [])
  }

  /** The description rule shared by both schemas: at least one character, no maximum. */
  function DescriptionViolations(description: string): (vs: seq<Violation>)
    ensures vs == [] <==> 1 <= |description|
    ensures |description| == 0 ==> vs == [TooSmall(1, DescriptionRequired)]
  {
    if |description| < 1 then [TooSmall(1, DescriptionRequired)] else []
  }

  /** The status rule of the update schema: one of the three enum names. */
  function StatusViolations(status: string): (vs: seq<Violation>)
    ensures vs == [] <==> IsStatusName(status)
  {
    if ParseStatus(status).Some? then [] else [InvalidEnumValue(status)]
  }

  /** Attaches a field name to each violation. */
  function Tagged(field: Field, vs: seq<Violation>): seq<FieldError>
  {
    seq(|vs|, i requires 0 <= i < |vs| => FieldError(field, vs[i]))
  }

  /** The violations of an optional field: an absent field is never checked. */
  function OptionalViolations(value: Option<string>, rule: string -> seq<Violation>): seq<Violation>
  {
    match value
    case None => []
    case Some(v) => rule(v)
  }

  /** The violations an error list files under one field, in order. */
  function ViolationsOf(errs: seq<FieldError>, field: Field): seq<Violation>
  {
    if errs == [] then []
    else (if errs[0].field == field then [errs[0].violation] else []) + ViolationsOf(errs[1..], field)
  }

  /** Filing by field distributes over concatenation of error lists. */
  lemma {:induction false} ViolationsOfAppend(front: seq<FieldError>, back: seq<FieldError>, field: Field)
    ensures ViolationsOf(front + back, field) == ViolationsOf(front, field) + ViolationsOf(back, field)
  {
    if front == [] {
      assert front + back == back;
    } else {
      assert (front + back)[1..] == front[1..] + back;
      ViolationsOfAppend(front[1..], back, field);
    }
  }

  /** Tagged violations are filed under their own field and under no other. */
  lemma {:induction false} ViolationsOfTagged(tag: Field, vs: seq<Violation>, field: Field)
    ensures ViolationsOf(Tagged(tag, vs), field) == if tag == field then vs else []
  {
    if vs != [] {
      assert Tagged(tag, vs)[1..] == Tagged(tag, vs[1..]);
      ViolationsOfTagged(tag, vs[1..], field);
    }
  }

  /** Every error the create schema reports for a body. */
  function CreateIssueErrors(body: CreateIssueBody): (errs: seq<FieldError>)
    ensures errs == [] <==> 1 <= |body.title| <= TitleMaxLength && 1 <= |body.description|
    ensures forall e :: e in errs ==> e.field != StatusField
  {
    Tagged(TitleField, TitleViolations(body.title))
    + Tagged(DescriptionField, DescriptionViolations(body.description))
  }

  /** Every error the update schema reports for a body. */
  function UpdateIssueErrors(body: UpdateIssueBody): (errs: seq<FieldError>)
    ensures errs == [] <==>
      && (body.title.Some? ==> 1 <= |body.title.value| <= TitleMaxLength)
      && (body.description.Some? ==> 1 <= |body.description.value|)
      && (body.status.Some? ==> IsStatusName(body.status.value))
    ensures forall e :: e in errs ==>
      && (e.field == TitleField ==> body.title.Some?)
      && (e.field == DescriptionField ==> body.description.Some?)
      && (e.field == StatusField ==> body.status.Some?)
  {
    Tagged(TitleField, OptionalViolations(body.title, TitleViolations))
    + Tagged(DescriptionField, OptionalViolations(body.description, DescriptionViolations))
    + Tagged(StatusField, OptionalViolations(body.status, StatusViolations))
  }

  /** The create schema's safe-parse: the body itself, or the errors. */
  function CreateIssueSchema(body: CreateIssueBody): (r: Result<CreateIssueBody, seq<FieldError>>)
    ensures r.Success? <==> 1 <= |body.title| <= TitleMaxLength && 1 <= |body.description|
    ensures r.Success? ==> r.value == body
    ensures r.Failure? ==> r.error != [] && r.error == CreateIssueErrors(body)
  {
    var errs := CreateIssueErrors(body);
    if errs == [] then Success(body) else Failure(errs)
  }

  /** The update schema's safe-parse: the fields present in the body, status parsed; or the errors. */
  function UpdateIssueSchema(body: UpdateIssueBody): (r: Result<IssueUpdate, seq<FieldError>>)
    ensures r.Success? <==>
      && (body.title.Some? ==> 1 <= |body.title.value| <= TitleMaxLength)
      && (body.description.Some? ==> 1 <= |body.description.value|)
      && (body.status.Some? ==> IsStatusName(body.status.value))
    ensures r.Success? ==>
      && r.value.title == body.title
      && r.value.description == body.description
      && (r.value.status.Some? <==> body.status.Some?)
      && (r.value.status.Some? ==> StatusName(r.value.status.value) == body.status.value)
    ensures r.Failure? ==> r.error != [] && r.error == UpdateIssueErrors(body)
  {
    var errs := UpdateIssueErrors(body);
    if errs != [] then Failure(errs)
    else
      var status := match body.status
        case None => None
        case Some(name) => ParseStatus(name);
      Success(IssueUpdate(body.title, body.description, status))
  }

  /**
   * The create schema files under each field exactly that field's violations:
   * the title is blamed iff it breaks the title rule, the description iff it
   * breaks the description rule, and the status never.
   */
  lemma CreateErrorsByField(body: CreateIssueBody)
    ensures ViolationsOf(CreateIssueErrors(body), TitleField) == TitleViolations(body.title)
    ensures ViolationsOf(CreateIssueErrors(body), DescriptionField) == DescriptionViolations(body.description)
    ensures ViolationsOf(CreateIssueErrors(body), StatusField) == []
    ensures ViolationsOf(CreateIssueErrors(body), TitleField) != [] <==> !(1 <= |body.title| <= TitleMaxLength)
    ensures ViolationsOf(CreateIssueErrors(body), DescriptionField) != [] <==> |body.description| < 1
  {
    var titleErrs := Tagged(TitleField, TitleViolations(body.title));
    var descriptionErrs := Tagged(DescriptionField, DescriptionViolations(body.description));
    forall field: Field
      ensures ViolationsOf(CreateIssueErrors(body), field)
           == ViolationsOf(titleErrs, field) + ViolationsOf(descriptionErrs, field)
    {
      ViolationsOfAppend(titleErrs, descriptionErrs, field);
    }
    ViolationsOfTagged(TitleField, TitleViolations(body.title), TitleField);
    ViolationsOfTagged(TitleField, TitleViolations(body.title), DescriptionField);
    ViolationsOfTagged(TitleField, TitleViolations(body.title), StatusField);
    ViolationsOfTagged(DescriptionField, DescriptionViolations(body.description), TitleField);
    ViolationsOfTagged(DescriptionField, DescriptionViolations(body.description), DescriptionField);
    ViolationsOfTagged(DescriptionField, DescriptionViolations(body.description), StatusField);
  }

  /** The update schema's errors split into its title, description and status parts. */
  lemma UpdateErrorsSplit(body: UpdateIssueBody, field: Field)
    ensures ViolationsOf(UpdateIssueErrors(body), field)
         == ViolationsOf(Tagged(TitleField, OptionalViolations(body.title, TitleViolations)), field)
          + ViolationsOf(Tagged(DescriptionField, OptionalViolations(body.description, DescriptionViolations)), field)
          + ViolationsOf(Tagged(StatusField, OptionalViolations(body.status, StatusViolations)), field)
  {
    var t := Tagged(TitleField, OptionalViolations(body.title, TitleViolations));
    var d := Tagged(DescriptionField, OptionalViolations(body.description, DescriptionViolations));
    var st := Tagged(StatusField, OptionalViolations(body.status, StatusViolations));
    ViolationsOfAppend(t + d, st, field);
    ViolationsOfAppend(t, d, field);
  }

  /** The update schema blames the title iff a title is present and breaks the create schema's title rule. */
  lemma UpdateTitleErrors(body: UpdateIssueBody)
    ensures ViolationsOf(UpdateIssueErrors(body), TitleField)
         == if body.title.Some? then TitleViolations(body.title.value) else []
    ensures ViolationsOf(UpdateIssueErrors(body), TitleField) != []
        <==> body.title.Some? && !(1 <= |body.title.value| <= TitleMaxLength)
  {
    UpdateErrorsSplit(body, TitleField);
    ViolationsOfTagged(TitleField, OptionalViolations(body.title, TitleViolations), TitleField);
    ViolationsOfTagged(DescriptionField, OptionalViolations(body.description, DescriptionViolations), TitleField);
    ViolationsOfTagged(StatusField, OptionalViolations(body.status, StatusViolations), TitleField);
  }

  /** The update schema blames the description iff one is present and it is empty. */
  lemma UpdateDescriptionErrors(body: UpdateIssueBody)
    ensures ViolationsOf(UpdateIssueErrors(body), DescriptionField)
         == if body.description.Some? then DescriptionViolations(body.description.value) else []
    ensures ViolationsOf(UpdateIssueErrors(body), DescriptionField) != []
        <==> body.description.Some? && |body.description.value| < 1
  {
    UpdateErrorsSplit(body, DescriptionField);
    ViolationsOfTagged(TitleField, OptionalViolations(body.title, TitleViolations), DescriptionField);
    ViolationsOfTagged(DescriptionField, OptionalViolations(body.description, DescriptionViolations), DescriptionField);
    ViolationsOfTagged(StatusField, OptionalViolations(body.status, StatusViolations), DescriptionField);
  }

  /** The update schema blames the status iff one is present and it is not an enum name. */
  lemma UpdateStatusErrors(body: UpdateIssueBody)
    ensures ViolationsOf(UpdateIssueErrors(body), StatusField)
         == if body.status.Some? then StatusViolations(body.status.value) else []
    ensures ViolationsOf(UpdateIssueErrors(body), StatusField) != []
        <==> body.status.Some? && ParseStatus(body.status.value).None?
  {
    UpdateErrorsSplit(body, StatusField);
    ViolationsOfTagged(TitleField, OptionalViolations(body.title, TitleViolations), StatusField);
    ViolationsOfTagged(DescriptionField, OptionalViolations(body.description, DescriptionViolations), StatusField);
    ViolationsOfTagged(StatusField, OptionalViolations(body.status, StatusViolations), StatusField);
  }

  /** An empty title fails the create schema with "Title is required.". */
  lemma CreateRejectsEmptyTitle(body: CreateIssueBody)
    requires body.title == ""
    ensures CreateIssueSchema(body).Failure?
    ensures FieldError(TitleField, TooSmall(1, TitleRequired)) in CreateIssueSchema(body).error
  {
    assert CreateIssueErrors(body)[0] == FieldError(TitleField, TooSmall(1, TitleRequired));
  }

  /** An empty description fails the create schema with "Description is required.". */
  lemma CreateRejectsEmptyDescription(body: CreateIssueBody)
    requires body.description == ""
    ensures CreateIssueSchema(body).Failure?
    ensures FieldError(DescriptionField, TooSmall(1, DescriptionRequired)) in CreateIssueSchema(body).error
  {
    var titleErrs := Tagged(TitleField, TitleViolations(body.title));
    assert CreateIssueErrors(body)[|titleErrs|] == FieldError(DescriptionField, TooSmall(1, DescriptionRequired));
  }

  /** A title over 255 characters fails both schemas, whatever the other fields hold. */
  lemma TitleTooLongRejectedByBoth(title: string, description: string, update: UpdateIssueBody)
    requires |title| > TitleMaxLength
    requires update.title == Some(title)
    ensures CreateIssueSchema(CreateIssueBody(title, description)).Failure?
    ensures FieldError(TitleField, TooBig(TitleMaxLength)) in CreateIssueSchema(CreateIssueBody(title, description)).error
    ensures UpdateIssueSchema(update).Failure?
    ensures FieldError(TitleField, TooBig(TitleMaxLength)) in UpdateIssueSchema(update).error
  {
    assert CreateIssueErrors(CreateIssueBody(title, description))[0] == FieldError(TitleField, TooBig(TitleMaxLength));
    assert UpdateIssueErrors(update)[0] == FieldError(TitleField, TooBig(TitleMaxLength));
  }

  /** Every field of the update schema is optional, so the empty body parses to the empty update. */
  lemma UpdateAcceptsEmptyBody()
    ensures UpdateIssueSchema(UpdateIssueBody(None, None, None)) == Success(IssueUpdate(None, None, None))
  {
  }

  /** A present status is accepted iff it names one of the three statuses, and then parses to that status. */
  lemma UpdateStatusRule(body: UpdateIssueBody, name: string)
    requires body.title.None? && body.description.None? && body.status == Some(name)
    ensures UpdateIssueSchema(body).Success? <==> ParseStatus(name).Some?
    ensures UpdateIssueSchema(body).Success? ==> UpdateIssueSchema(body).value.status == ParseStatus(name)
    ensures UpdateIssueSchema(body).Failure? ==> UpdateIssueSchema(body).error == [FieldError(StatusField, InvalidEnumValue(name))]
  {
  }

  /**
   * The update schema checks a present title and description by exactly the
   * create schema's rules: for the same strings it reports the same errors.
   */
  lemma UpdateAgreesWithCreate(title: string, description: string)
    ensures UpdateIssueErrors(UpdateIssueBody(Some(title), Some(description), None))
         == CreateIssueErrors(CreateIssueBody(title, description))
  {
  }

  /** Every title and description the create schema accepts, the update schema accepts too, with or without a valid status. */
  lemma CreateAcceptedImpliesUpdateAccepted(body: CreateIssueBody, status: Option<Status>)
    requires CreateIssueSchema(body).Success?
    ensures UpdateIssueSchema(UpdateIssueBody(Some(body.title), Some(body.description), None)).Success?
    ensures var name := match status case None => None case Some(s) => Some(StatusName(s));
      UpdateIssueSchema(UpdateIssueBody(Some(body.title), Some(body.description), name))
        == Success(IssueUpdate(Some(body.title), Some(body.description), status))
  {
  }

  /** An absent field never causes rejection: dropping fields from an accepted update keeps it accepted. */
  lemma UpdateDroppingFieldsStaysAccepted(body: UpdateIssueBody, keepTitle: bool, keepDescription: bool, keepStatus: bool)
    requires UpdateIssueSchema(body).Success?
    ensures UpdateIssueSchema(UpdateIssueBody(
      if keepTitle then body.title else None,
      if keepDescription then body.description else None,
      if keepStatus then body.status else None)).Success?
  {
  }
}
