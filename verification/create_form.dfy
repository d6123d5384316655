/** The announcement creation form
    (src/components/admin/CreateAnnouncementForm.tsx): field validation that
    collects every error, the publish option's status and schedule mapping,
    and the submit handler with its reset. */
module CreateForm {
  import opened Common
  import opened Types

  /** The radio choice: save as draft, publish now, or schedule. */
  datatype PublishOption = SaveDraft | PublishNow | ScheduleLater

  /** The editable fields; the URL and link-text inputs hold '' when empty. */
  datatype FormData = FormData(
    title: string,
    content: string,
    kind: AnnType,
    priority: Priority,
    timezone: string,
    imageUrl: string,
    linkUrl: string,
    linkText: string)

  /** The whole form state. */
  datatype Form = Form(
    data: FormData,
    option: PublishOption,
    scheduledDate: string,
    scheduledTime: string,
    errors: map<Field, string>,
    error: Option<string>,
    success: Option<string>)

  /** What the rich-text editor holds when the user has typed nothing. */
  const EmptyEditorMarkup: string := "<p><br></p>"

  /** The minimum lead time of a schedule: five minutes, in milliseconds. */
  const MinLeadMs: int := 5 * 60 * 1000

  /** The form's fresh state; `timezone` is the viewer's own zone. */
  function Fresh(timezone: string): Form {
    Form(FormData("", "", Feature, Medium, timezone, "", "", ""),
         SaveDraft, "", "", map[], None, None)
  }

  // ---------------------------------------------------------------------
  // String.prototype.trim

  /** The characters `trim()` removes: white space and line terminators. */
  predicate IsTrimmable(c: char) {
    || c == '\t' || c == '\n' || c == '\U{000B}' || c == '\U{000C}' || c == '\r' || c == ' '
    || c == '\U{00A0}' || c == '\U{1680}' || ('\U{2000}' <= c <= '\U{200A}')
    || c == '\U{2028}' || c == '\U{2029}' || c == '\U{202F}' || c == '\U{205F}'
    || c == '\U{3000}' || c == '\U{FEFF}'
  }

  /** Drops leading trimmable characters. */
  function TrimStart(s: string): string {
    if s != [] && IsTrimmable(s[0]) then TrimStart(s[1..]) else s
  }

  /** Drops trailing trimmable characters. */
  function TrimEnd(s: string): string {
    if s != [] && IsTrimmable(s[|s| - 1]) then TrimEnd(s[..|s| - 1]) else s
  }

  /** `s.trim()`. */
  function Trim(s: string): string {
    TrimEnd(TrimStart(s))
  }

  /** Every character of `s` is trimmable. */
  predicate AllTrimmable(s: string) {
    forall i :: 0 <= i < |s| ==> IsTrimmable(s[i])
  }

  /** `!s.trim()`: the trimmed text is empty exactly when every character
      is white space or a line terminator. */
  lemma TrimEmptyIffAllTrimmable(s: string)
    ensures Trim(s) == "" <==> AllTrimmable(s)
  {
    TrimStartEmpty(s);
    var t := TrimStart(s);
    if t != [] {
      TrimStartStops(s);
      TrimEndKeepsFirst(t);
    }
  }

  lemma {:induction false} TrimStartEmpty(s: string)
    ensures TrimStart(s) == "" <==> AllTrimmable(s)
  {
    if s != [] && IsTrimmable(s[0]) {
      TrimStartEmpty(s[1..]);
      assert AllTrimmable(s) <==> AllTrimmable(s[1..]) by {
        if AllTrimmable(s[1..]) {
          forall i | 0 <= i < |s| ensures IsTrimmable(s[i]) {
            if i > 0 { assert s[i] == s[1..][i - 1]; }
          }
        }
      }
    } else if s != [] {
      assert !IsTrimmable(s[0]);
    }
  }

  lemma {:induction false} TrimStartStops(s: string)
    requires TrimStart(s) != ""
    ensures !IsTrimmable(TrimStart(s)[0])
  {
    if s != [] && IsTrimmable(s[0]) {
      TrimStartStops(s[1..]);
    }
  }

  lemma {:induction false} TrimEndKeepsFirst(t: string)
    requires t != "" && !IsTrimmable(t[0])
    ensures TrimEnd(t) != ""
  {
    if IsTrimmable(t[|t| - 1]) {
      assert |t| > 1;
      TrimEndKeepsFirst(t[..|t| - 1]);
    }
  }

  // ---------------------------------------------------------------------
  // Validation

  /** The keys of the validation-error record. */
  datatype Field = Title | Content | ScheduledDate | ScheduledTime | ScheduledDateTime | ImageUrl | LinkUrl

  /** The key each field's error is stored under. */
  function FieldKey(k: Field): string {
    match k
    case Title => "title"
    case Content => "content"
    case ScheduledDate => "scheduledDate"
    case ScheduledTime => "scheduledTime"
    case ScheduledDateTime => "scheduledDateTime"
    case ImageUrl => "imageUrl"
    case LinkUrl => "linkUrl"
  }

  /** The message shown for each field. */
  function FieldMessage(k: Field): string {
    match k
    case Title => "Title is required"
    case Content => "Content is required"
    case ScheduledDate => "Scheduled date is required"
    case ScheduledTime => "Scheduled time is required"
    case ScheduledDateTime => "Scheduled time must be at least 5 minutes in the future"
    case ImageUrl => "Please enter a valid image URL"
    case LinkUrl => "Please enter a valid link URL"
  }

  /** Every field the form checks. */
  const AllFields: set<Field> :=
    {Title, Content, ScheduledDate, ScheduledTime, ScheduledDateTime, ImageUrl, LinkUrl}

  /** The test `validateForm` applies to each field. */
  predicate Fails(f: Form, when: Option<int>, now: int, validUrl: string -> bool, k: Field) {
    var scheduled := f.option == ScheduleLater;
    match k
    case Title => Trim(f.data.title) == ""
    case Content => Trim(f.data.content) == "" || f.data.content == EmptyEditorMarkup
    case ScheduledDate => scheduled && f.scheduledDate == ""
    case ScheduledTime => scheduled && f.scheduledTime == ""
    case ScheduledDateTime =>
      scheduled && f.scheduledDate != "" && f.scheduledTime != ""
      && when.Some? && when.value <= now + MinLeadMs
    case ImageUrl => f.data.imageUrl != "" && !validUrl(f.data.imageUrl)
    case LinkUrl => f.data.linkUrl != "" && !validUrl(f.data.linkUrl)
  }

  /** `validateForm()`: one entry per failing field, all collected rather
      than stopping at the first. `when` is the instant
      `new Date(date + 'T' + time)` denotes (absent for an invalid date,
      which compares false); `validUrl` is the URL parser's verdict. The
      timezone field plays no part. */
  function Validate(f: Form, when: Option<int>, now: int, validUrl: string -> bool): (errors: map<Field, string>)
    ensures forall k :: k in errors ==> errors[k] == FieldMessage(k)
  {
    map k | k in AllFields && Fails(f, when, now, validUrl, k) :: FieldMessage(k)
  }

  /** Validation checks the title, the content and the two URLs
      independently: each has an error exactly when its own condition
      fails, and a URL is checked only when it is non-empty. */
  lemma ValidateTextFields(f: Form, when: Option<int>, now: int, validUrl: string -> bool)
    ensures Title in Validate(f, when, now, validUrl) <==> AllTrimmable(f.data.title)
    ensures Content in Validate(f, when, now, validUrl) <==>
      AllTrimmable(f.data.content) || f.data.content == EmptyEditorMarkup
    ensures ImageUrl in Validate(f, when, now, validUrl) <==> f.data.imageUrl != "" && !validUrl(f.data.imageUrl)
    ensures LinkUrl in Validate(f, when, now, validUrl) <==> f.data.linkUrl != "" && !validUrl(f.data.linkUrl)
  {
    TrimEmptyIffAllTrimmable(f.data.title);
    TrimEmptyIffAllTrimmable(f.data.content);
    assert Fails(f, when, now, validUrl, Title) <==> Trim(f.data.title) == "";
    assert Fails(f, when, now, validUrl, Content) <==>
      Trim(f.data.content) == "" || f.data.content == EmptyEditorMarkup;
  }

  /** The schedule fields are checked only for the scheduled option: a
      missing date and a missing time are reported separately, and an
      instant not more than five minutes ahead is reported once both are
      present. */
  lemma ValidateScheduleFields(f: Form, when: Option<int>, now: int, validUrl: string -> bool)
    ensures ScheduledDate in Validate(f, when, now, validUrl) <==> f.option == ScheduleLater && f.scheduledDate == ""
    ensures ScheduledTime in Validate(f, when, now, validUrl) <==> f.option == ScheduleLater && f.scheduledTime == ""
    ensures ScheduledDateTime in Validate(f, when, now, validUrl) <==>
      (f.option == ScheduleLater && f.scheduledDate != "" && f.scheduledTime != ""
       && when.Some? && when.value <= now + MinLeadMs)
  {
  }

  /** `Object.keys(errors).length === 0`: the form is valid. */
  predicate IsValid(f: Form, when: Option<int>, now: int, validUrl: string -> bool) {
    |Validate(f, when, now, validUrl)| == 0
  }

  /** Distinct fields have distinct keys. */
  lemma FieldKeysDistinct(a: Field, b: Field)
    ensures FieldKey(a) == FieldKey(b) <==> a == b
  {
  }

  /** The scenario of an empty title with real content and no URLs: the
      only error is on the title. */
  lemma EmptyTitleOnlyTitleError(f: Form, when: Option<int>, now: int, validUrl: string -> bool)
    requires f.data.title == "" && f.data.content == "<p>Hello</p>"
    requires f.option != ScheduleLater && f.data.imageUrl == "" && f.data.linkUrl == ""
    ensures Validate(f, when, now, validUrl).Keys == {Title}
  {
    assert !IsTrimmable(f.data.content[0]);
    ValidateTextFields(f, when, now, validUrl);
    ValidateScheduleFields(f, when, now, validUrl);
    var e := Validate(f, when, now, validUrl);
    assert Title in e;
  }

  /** A schedule four minutes ahead is refused. */
  lemma FourMinutesAheadRefused(f: Form, now: int, validUrl: string -> bool)
    requires f.option == ScheduleLater && f.scheduledDate != "" && f.scheduledTime != ""
    ensures ScheduledDateTime in Validate(f, Some(now + 4 * 60 * 1000), now, validUrl)
  {
    ValidateScheduleFields(f, Some(now + 4 * 60 * 1000), now, validUrl);
  }

  // ---------------------------------------------------------------------
  // Submission

  /** The stored status of each publish option. */
  function StatusFor(option: PublishOption): (s: CreateStatus)
    ensures (s == CreatePublished) == (option == PublishNow)
    ensures (s == CreateScheduled) == (option == ScheduleLater)
    ensures (s == CreateDraft) == (option == SaveDraft)
  {
    match option
    case SaveDraft => CreateDraft
    case PublishNow => CreatePublished
    case ScheduleLater => CreateScheduled
  }

  /** The message `toISOString` throws for an invalid date. */
  const InvalidTimeMessage: string := "Invalid time value"

  /** The data handed to `onSubmit`: the form fields with the option's
      status, and the schedule instant only for the scheduled option
      (converting an invalid date throws). */
  function Submission(f: Form, when: Option<int>): (r: Result<CreateData>)
    ensures r.Err? <==> f.option == ScheduleLater && when.None?
    ensures r.Ok? ==> StatusOf(r.value.status) != Archived
    ensures r.Ok? ==> r.value.status == StatusFor(f.option)
    ensures r.Ok? ==> (r.value.scheduledAt.Some? <==> f.option == ScheduleLater)
    ensures r.Ok? && f.option == ScheduleLater ==> r.value.scheduledAt == when
    ensures r.Ok? ==> (r.value.title == f.data.title && r.value.content == f.data.content
      && r.value.timezone == f.data.timezone && r.value.imageUrl == Some(f.data.imageUrl)
      && r.value.linkUrl == Some(f.data.linkUrl) && r.value.linkText == Some(f.data.linkText))
    ensures r.Ok? ==> r.value.kind == f.data.kind && r.value.priority == f.data.priority
  {
    var d := f.data;
    var scheduledAt := if f.option == ScheduleLater then when else None;
    if f.option == ScheduleLater && when.None? then Err(InvalidTimeMessage)
    else Ok(CreateData(d.title, d.content, d.kind, d.priority, StatusFor(f.option),
                       scheduledAt, d.timezone, Some(d.imageUrl), Some(d.linkUrl), Some(d.linkText)))
  }

  /** How the caller's `onSubmit` settles: it resolves, or rejects with an
      error whose message may be absent. */
  datatype SubmitOutcome = Resolved | Rejected(message: Option<string>)

  /** The form after a submit attempt, and what was handed to `onSubmit`. */
  datatype SubmitStep = SubmitStep(form: Form, submitted: Option<CreateData>)

  /** The banner shown when `onSubmit` rejects without a message. */
  const SubmitFailedText: string := "Failed to create announcement. Please try again."

  /** The success banner; `whenText` is the locale rendering of the
      schedule ("<date> at <time>"). */
  function SuccessMessage(option: PublishOption, whenText: string): string {
    match option
    case SaveDraft => "Announcement saved as draft successfully!"
    case PublishNow => "Announcement published successfully!"
    case ScheduleLater => "Announcement scheduled successfully for " + whenText + "!"
  }

  /** `handleSubmit`. */
  function HandleSubmit(f: Form, when: Option<int>, now: int, validUrl: string -> bool,
                        viewerZone: string, outcome: SubmitOutcome, whenText: string): (r: SubmitStep)
    ensures var errors := Validate(f, when, now, validUrl);
      |errors| > 0 ==> r.submitted.None? && r.form == f.(errors := errors, error := None, success := None)
    ensures r.submitted.Some? ==> IsValid(f, when, now, validUrl) && Submission(f, when) == Ok(r.submitted.value)
    ensures r.form.success.Some? <==> r.submitted.Some? && outcome.Resolved?
    ensures r.form.success.Some? ==>
      r.form == Fresh(viewerZone).(success := Some(SuccessMessage(f.option, whenText)))
    ensures r.form.success.None? ==> r.form.data == f.data && r.form.option == f.option
    ensures r.form.error.Some? <==> IsValid(f, when, now, validUrl) && (Submission(f, when).Err? || outcome.Rejected?)
    ensures IsValid(f, when, now, validUrl) && Submission(f, when).Err? ==>
      r.submitted.None? && r.form.error == Some(InvalidTimeMessage)
    ensures r.submitted.Some? && outcome.Rejected? ==>
      r.form.error == Some(OrElse(outcome.message, SubmitFailedText)) && r.form.errors == map[]
  {
    var errors := Validate(f, when, now, validUrl);
    var cleared := f.(errors := errors, error := None, success := None);
    if |errors| > 0 then SubmitStep(cleared, None)
    else match Submission(f, when)
      case Err(message) => SubmitStep(cleared.(error := Some(message)), None)
      case Ok(data) =>
        match outcome
        case Resolved =>
          SubmitStep(Fresh(viewerZone).(success := Some(SuccessMessage(f.option, whenText))), Some(data))
        case Rejected(message) =>
          SubmitStep(cleared.(error := Some(OrElse(message, SubmitFailedText))), Some(data))
  }

  /** Whatever is handed to `onSubmit` with the scheduled status carries an
      instant more than five minutes after `now`. */
  lemma ScheduledSubmissionIsInFuture(f: Form, when: Option<int>, now: int, validUrl: string -> bool,
                                      viewerZone: string, outcome: SubmitOutcome, whenText: string)
    requires HandleSubmit(f, when, now, validUrl, viewerZone, outcome, whenText).submitted.Some?
    ensures var d := HandleSubmit(f, when, now, validUrl, viewerZone, outcome, whenText).submitted.value;
      d.status == CreateScheduled ==> d.scheduledAt.Some? && d.scheduledAt.value > now + MinLeadMs
  {
    var errors := Validate(f, when, now, validUrl);
    assert |errors| == 0;
    ValidateScheduleFields(f, when, now, validUrl);
    if f.option == ScheduleLater {
      assert ScheduledDate !in errors && ScheduledTime !in errors && ScheduledDateTime !in errors;
    }
  }
}
