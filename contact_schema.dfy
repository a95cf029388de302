/**
 * The contact form's validation schema: four independent per-field rules, each with its
 * own fixed message, and the pure validation of a draft against them.
 *
 * The e-mail format test belongs to the validation library and is not visible, so every
 * member that needs it takes it as the parameter `isEmail`.
 */
module ContactSchema {

  /** The four fields of the contact form. */
  datatype Field = Name | Email | Phone | Message

  const AllFields: set<Field> := {Name, Email, Phone, Message}

  /** A draft: the current, possibly invalid, text of the four fields. */
  datatype Draft = Draft(name: string, email: string, phone: string, message: string)

  function Value(d: Draft, f: Field): string
  {
    match f
    case Name => d.name
    case Email => d.email
    case Phone => d.phone
    case Message => d.message
  }

  /** The form's default values: every field empty. */
  const DefaultDraft: Draft := Draft("", "", "", "")

  /** One field rule: a minimum length, or a well-formed e-mail address; each carries its message. */
  datatype Rule = MinLength(min: nat, message: string) | EmailFormat(message: string)

  /** A schema gives one rule per field. */
  datatype Schema = Schema(name: Rule, email: Rule, phone: Rule, message: Rule)

  function RuleFor(s: Schema, f: Field): Rule
  {
    match f
    case Name => s.name
    case Email => s.email
    case Phone => s.phone
    case Message => s.message
  }

  const NameMin: nat := 2
  const PhoneMin: nat := 10
  const MessageMin: nat := 10

  const NameError := "Name is required"
  const EmailError := "Invalid email address"
  const PhoneError := "Valid phone number is required"
  const MessageError := "Please provide more details"

  /** The schema of the contact section component. */
  const Contact: Schema := Schema(
    MinLength(NameMin, NameError),
    EmailFormat(EmailError),
    MinLength(PhoneMin, PhoneError),
    MinLength(MessageMin, MessageError))

  /** The unused copy of the schema declared by the home page, written out on its own. */
  const HomeCopy: Schema := Schema(
    MinLength(2, "Name is required"),
    EmailFormat("Invalid email address"),
    MinLength(10, "Valid phone number is required"),
    MinLength(10, "Please provide more details"))

  predicate Satisfies(r: Rule, v: string, isEmail: string -> bool)
  {
    match r
    case MinLength(n, _) => |v| >= n
    case EmailFormat(_) => isEmail(v)
  }

  /** Does field `f` of `d` satisfy its own rule in `s`? */
  predicate Passes(s: Schema, d: Draft, f: Field, isEmail: string -> bool)
  {
    Satisfies(RuleFor(s, f), Value(d, f), isEmail)
  }

  /**
   * One entry per violated rule: a field is a key exactly when it fails its own rule,
   * and its entry is that rule's message.
   */
  function FieldErrors(s: Schema, d: Draft, isEmail: string -> bool): (e: map<Field, string>)
    ensures forall f :: f in e <==> !Passes(s, d, f, isEmail)
    ensures forall f :: f in e ==> e[f] == RuleFor(s, f).message
  {
    map f | f in AllFields && !Passes(s, d, f, isEmail) :: RuleFor(s, f).message
  }

  /** The outcome of validation: the draft itself, or the map from field to message. */
  datatype Validation = Ok(data: Draft) | Err(errors: map<Field, string>)

  function ErrorsOf(r: Validation): map<Field, string>
  {
    match r
    case Ok(_) => map[]
    case Err(e) => e
  }

  /**
   * Validates a whole draft. It is accepted exactly when every field passes its own rule,
   * and an accepted draft is handed on unchanged (no trimming, no coercion).
   */
  function Validate(s: Schema, d: Draft, isEmail: string -> bool): (r: Validation)
    ensures r.Ok? <==> forall f :: Passes(s, d, f, isEmail)
    ensures r.Ok? ==> r.data == d
    ensures r.Err? ==> r.errors != map[]
  {
    var e := FieldErrors(s, d, isEmail);
    if e == map[] then Ok(d) else Err(e)
  }

  /** The errors reported by validation are exactly the per-field errors. */
  lemma ValidateReportsFieldErrors(s: Schema, d: Draft, isEmail: string -> bool)
    ensures ErrorsOf(Validate(s, d, isEmail)) == FieldErrors(s, d, isEmail)
  {
    if Validate(s, d, isEmail).Ok? {
      var e := FieldErrors(s, d, isEmail);
      assert forall f :: f !in e;
    }
  }

  /** A draft is accepted exactly when its error map is empty. */
  lemma AcceptedIffNoErrors(s: Schema, d: Draft, isEmail: string -> bool)
    ensures Validate(s, d, isEmail).Ok? <==> ErrorsOf(Validate(s, d, isEmail)) == map[]
  {
  }

  /** Whether a field is flagged, and with which message, depends on that field's text alone. */
  lemma FieldIndependence(s: Schema, d1: Draft, d2: Draft, f: Field, isEmail: string -> bool)
    requires Value(d1, f) == Value(d2, f)
    ensures var e1, e2 := ErrorsOf(Validate(s, d1, isEmail)), ErrorsOf(Validate(s, d2, isEmail));
      (f in e1 <==> f in e2) && (f in e1 ==> e1[f] == e2[f])
  {
    ValidateReportsFieldErrors(s, d1, isEmail);
    ValidateReportsFieldErrors(s, d2, isEmail);
  }

  /** `name` is flagged exactly when it is shorter than two characters, and then only with its message. */
  lemma NameRule(d: Draft, isEmail: string -> bool)
    ensures var e := ErrorsOf(Validate(Contact, d, isEmail));
      (Name in e <==> |d.name| < 2) && (Name in e ==> e[Name] == "Name is required")
  {
    ValidateReportsFieldErrors(Contact, d, isEmail);
  }

  /** `email` is flagged exactly when the format test fails, whatever its length. */
  lemma EmailRule(d: Draft, isEmail: string -> bool)
    ensures var e := ErrorsOf(Validate(Contact, d, isEmail));
      (Email in e <==> !isEmail(d.email)) && (Email in e ==> e[Email] == "Invalid email address")
  {
    ValidateReportsFieldErrors(Contact, d, isEmail);
  }

  /** `phone` is flagged exactly when it is shorter than ten characters. */
  lemma PhoneRule(d: Draft, isEmail: string -> bool)
    ensures var e := ErrorsOf(Validate(Contact, d, isEmail));
      (Phone in e <==> |d.phone| < 10) && (Phone in e ==> e[Phone] == "Valid phone number is required")
  {
    ValidateReportsFieldErrors(Contact, d, isEmail);
  }

  /** `message` is flagged exactly when it is shorter than ten characters. */
  lemma MessageRule(d: Draft, isEmail: string -> bool)
    ensures var e := ErrorsOf(Validate(Contact, d, isEmail));
      (Message in e <==> |d.message| < 10) && (Message in e ==> e[Message] == "Please provide more details")
  {
    ValidateReportsFieldErrors(Contact, d, isEmail);
  }

  /**
   * The default (all-empty) draft is rejected on `name`, `phone` and `message`, and on `email`
   * exactly when the empty string is not an e-mail address.
   */
  lemma DefaultDraftRejected(isEmail: string -> bool)
    ensures Validate(Contact, DefaultDraft, isEmail).Err?
    ensures ErrorsOf(Validate(Contact, DefaultDraft, isEmail)).Keys
      == {Name, Phone, Message} + (if isEmail("") then {} else {Email})
  {
    ValidateReportsFieldErrors(Contact, DefaultDraft, isEmail);
    assert !Passes(Contact, DefaultDraft, Name, isEmail);
  }

  /** A draft whose only failing field is `f` is rejected with exactly that field's message. */
  lemma OnlyFailure(s: Schema, d: Draft, f: Field, isEmail: string -> bool)
    requires !Passes(s, d, f, isEmail)
    requires forall g :: g != f ==> Passes(s, d, g, isEmail)
    ensures Validate(s, d, isEmail) == Err(map[f := RuleFor(s, f).message])
  {
    var e := FieldErrors(s, d, isEmail);
    assert e.Keys == {f};
    assert e == map[f := RuleFor(s, f).message];
  }

  /** A complete, well-formed draft is accepted as it is. */
  lemma AcceptedScenario(isEmail: string -> bool)
    requires isEmail("a@b.com")
    ensures var d := Draft("Jo", "a@b.com", "1234567890", "Hello there, I need help.");
      Validate(Contact, d, isEmail) == Ok(d)
  {
  }

  /** A one-letter name is the only complaint about an otherwise good draft. */
  lemma ShortNameScenario(isEmail: string -> bool)
    requires isEmail("a@b.com")
    ensures Validate(Contact, Draft("J", "a@b.com", "1234567890", "Hello there, I need help."), isEmail)
      == Err(map[Name := "Name is required"])
  {
    var d := Draft("J", "a@b.com", "1234567890", "Hello there, I need help.");
    assert !Passes(Contact, d, Name, isEmail);
    assert Passes(Contact, d, Email, isEmail) && Passes(Contact, d, Phone, isEmail) && Passes(Contact, d, Message, isEmail);
    OnlyFailure(Contact, d, Name, isEmail);
  }

  /** A malformed address is the only complaint about an otherwise good draft. */
  lemma BadEmailScenario(isEmail: string -> bool)
    requires !isEmail("not-an-email")
    ensures Validate(Contact, Draft("Jo", "not-an-email", "1234567890", "Hello there, I need help."), isEmail)
      == Err(map[Email := "Invalid email address"])
  {
    var d := Draft("Jo", "not-an-email", "1234567890", "Hello there, I need help.");
    assert !Passes(Contact, d, Email, isEmail);
    assert Passes(Contact, d, Name, isEmail) && Passes(Contact, d, Phone, isEmail) && Passes(Contact, d, Message, isEmail);
    OnlyFailure(Contact, d, Email, isEmail);
  }

  /** An empty draft, with the empty string rejected as an address, draws all four messages. */
  lemma EmptyDraftScenario(isEmail: string -> bool)
    requires !isEmail("")
    ensures Validate(Contact, DefaultDraft, isEmail)
      == Err(map[Name := "Name is required", Email := "Invalid email address",
                 Phone := "Valid phone number is required", Message := "Please provide more details"])
  {
    ValidateReportsFieldErrors(Contact, DefaultDraft, isEmail);
    assert FieldErrors(Contact, DefaultDraft, isEmail)
      == map[Name := "Name is required", Email := "Invalid email address",
             Phone := "Valid phone number is required", Message := "Please provide more details"];
  }

  /** The home page's copy of the schema has the same rules and messages, so it validates alike. */
  lemma HomeCopyMatches(d: Draft, isEmail: string -> bool)
    ensures forall f :: RuleFor(HomeCopy, f) == RuleFor(Contact, f)
    ensures Validate(HomeCopy, d, isEmail) == Validate(Contact, d, isEmail)
  {
  }
}
