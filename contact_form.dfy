/**
 * The contact form's state and its submit flow: submission is gated by validation, and
 * only a valid draft reaches the handler that shows the acknowledgement and resets the form.
 */
module ContactForm {
  import opened ContactSchema

  /** A notification as the form emits it: its title and its description. */
  datatype Toast = Toast(title: string, description: string)

  /** The one acknowledgement an accepted submission emits. */
  const Acknowledgement: Toast :=
    Toast("Message Sent", "Thank you for reaching out. Dr. Polena's office will contact you shortly.")

  /** What a submit attempt came to: the data handed to the handler, or the field errors. */
  datatype Outcome = Accepted(record: Draft) | Rejected(errors: map<Field, string>)

  /** The outcome validation decides for a draft. */
  function Decide(d: Draft, isEmail: string -> bool): (o: Outcome)
    ensures o.Accepted? <==> forall f :: Passes(Contact, d, f, isEmail)
    ensures o.Accepted? ==> o.record == d
    ensures o.Rejected? ==> o.errors == FieldErrors(Contact, d, isEmail) && o.errors != map[]
  {
    ValidateReportsFieldErrors(Contact, d, isEmail);
    match Validate(Contact, d, isEmail)
    case Ok(data) => Accepted(data)
    case Err(e) => Rejected(e)
  }

  class Form {
    var name: string
    var email: string
    var phone: string
    var message: string
    /** Every notification emitted so far, oldest first. */
    var toasts: seq<Toast>

    function Current(): Draft
      reads this
    {
      Draft(name, email, phone, message)
    }

    /** A fresh form holds the default values and has emitted nothing. */
    constructor ()
      ensures Current() == DefaultDraft && toasts == []
    {
      name, email, phone, message := "", "", "", "";
      toasts := [];
    }

    /** The user types into field `f`: only that field changes. */
    method Edit(f: Field, v: string)
      modifies this
      ensures Value(Current(), f) == v
      ensures forall g :: g != f ==> Value(Current(), g) == Value(old(Current()), g)
      ensures toasts == old(toasts)
    {
      match f
      case Name => name := v;
      case Email => email := v;
      case Phone => phone := v;
      case Message => message := v;
    }

    /** The handler for validated data: one acknowledgement, then every field back to its default. */
    method OnSubmit(data: Draft)
      modifies this
      ensures toasts == old(toasts) + [Acknowledgement]
      ensures Current() == DefaultDraft
    {
      toasts := toasts + [Acknowledgement];
      name, email, phone, message := "", "", "", "";
    }

    /**
     * The form's submit event: validate the current draft; on success pass it, unchanged,
     * to OnSubmit; on failure change nothing and report the field errors.
     */
    method Submit(isEmail: string -> bool) returns (outcome: Outcome)
      modifies this
      ensures outcome == Decide(old(Current()), isEmail)
      ensures outcome.Accepted? ==>
        toasts == old(toasts) + [Acknowledgement] && Current() == DefaultDraft
      ensures outcome.Rejected? ==>
        toasts == old(toasts) && Current() == old(Current())
    {
      match Validate(Contact, Current(), isEmail)
      case Ok(data) =>
        OnSubmit(data);
        outcome := Accepted(data);
      case Err(e) =>
        outcome := Rejected(e);
    }
  }

  /**
   * A user fills in a valid draft and presses submit twice: the first press is accepted
   * with the draft as entered, the second finds the reset form and is rejected, and exactly
   * one acknowledgement has been emitted.
   */
  method SubmitTwice(d: Draft, isEmail: string -> bool) returns (first: Outcome, second: Outcome, shown: seq<Toast>)
    requires forall f :: Passes(Contact, d, f, isEmail)
    ensures first == Accepted(d)
    ensures second.Rejected? && Name in second.errors && Phone in second.errors && Message in second.errors
    ensures shown == [Acknowledgement]
  {
    var form := new Form();
    form.Edit(Name, d.name);
    form.Edit(Email, d.email);
    form.Edit(Phone, d.phone);
    form.Edit(Message, d.message);
    assert form.Current() == d;
    first := form.Submit(isEmail);
    DefaultDraftRejected(isEmail);
    second := form.Submit(isEmail);
    shown := form.toasts;
  }
}
