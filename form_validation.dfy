/** js/form-validation.js: the `#contactForm` validator. Each field is checked
    by a rule chosen by its `name`; the verdict is shown on the field's parent
    form group by the classes `has-error` / `has-success` and at most one
    `.error-message`; submit takes the conjunction over all fields and shows a
    single feedback banner. */
module FormValidation {
  import opened Text
  import opened Patterns
  import opened Dom

  const HasError := "has-error"
  const HasSuccess := "has-success"
  const Focused := "focused"
  /** The text `addError` uses when it is given no message. */
  const DefaultMessage := "Please check this field"

  /** An inserted `.error-message`; `id` is "" when the field had no id. */
  datatype ErrorMessage = ErrorMessage(id: string, text: string)

  /** A field's parent form group: its classes and its `.error-message`
      children. */
  datatype Group = Group(classes: set<string>, errors: seq<ErrorMessage>)

  /** An `input`, `textarea` or `select` of the form. A missing `name`, `id`
      or `aria-describedby` attribute is "", and `group` is None when the
      field has no parent. `defaultValue` is what the form's `reset()`
      restores: an input's `value` attribute, a select's initially selected
      option, a textarea's initial text. */
  datatype Field = Field(name: string, id: string, describedBy: string, value: string,
                         defaultValue: string, required: bool, group: Option<Group>)

  /** What each rule accepts, stated on the trimmed value without the
      messages: the independent reading of the `switch` in validateField. */
  predicate Acceptable(name: string, value: string, required: bool) {
    var t := Trim(value);
    if name == "name" then 2 <= |t| <= 100
    else if name == "email" then IsEmail(t) && |t| <= 254
    else if name == "phone" then IsPhone(t)
    else if name == "subject" then t != ""
    else if name == "message" then 10 <= |t| <= 2000
    else !(required && t == "")
  }

  /** The `switch (name)` of validateField: the message of the first check
      that fails, or None when the value passes. */
  function FieldRule(name: string, value: string, required: bool): (r: Option<string>)
    ensures r.None? <==> Acceptable(name, value, required)
    ensures r.Some? ==> r.value != ""
  {
    var t := Trim(value);
    if name == "name" then
      if t == "" || |t| < 2 then Some("Please enter your name (at least 2 characters)")
      else if |t| > 100 then Some("Name is too long (maximum 100 characters)")
      else None
    else if name == "email" then
      if t == "" then Some("Please enter your email address")
      else if !IsEmail(t) then Some("Please enter a valid email address")
      else if |t| > 254 then Some("Email address is too long")
      else None
    else if name == "phone" then
      if t == "" then Some("Please enter your phone number")
      else if !IsPhone(t) then Some("Please enter a valid phone number (10-15 digits)")
      else None
    else if name == "subject" then
      if t == "" then Some("Please select a subject") else None
    else if name == "message" then
      if t == "" then Some("Please enter your message")
      else if |t| < 10 then Some("Please enter your message (at least 10 characters)")
      else if |t| > 2000 then Some("Message is too long (maximum 2000 characters)")
      else None
    else
      if required && t == "" then Some("This field is required") else None
  }

  /** An address padded with white space is accepted: the pattern is tested
      on the trimmed value. */
  lemma PaddedEmailAccepted(value: string)
    requires value == " a@b.co"
    ensures FieldRule("email", value, true).None?
  {
    var s := value[1..];
    assert EmailSplit(s, 1, 3);
    assert value == " " + s + "";
    PaddedEmailAcceptedAll(" ", s, "", true);
  }

  /** Every accepted address of at most 254 characters is still accepted
      with any white space around it, although the raw text fails the
      pattern. */
  lemma PaddedEmailAcceptedAll(pad: string, s: string, pad2: string, required: bool)
    requires IsEmail(s) && |s| <= 254 && AllSpace(pad) && AllSpace(pad2) && |pad| + |pad2| > 0
    ensures FieldRule("email", pad + s + pad2, required).None?
    ensures !IsEmail(pad + s + pad2)
  {
    PaddedEmailRefusedUntrimmed(pad, s, pad2);
  }

  /** A valid-looking address longer than 254 characters gets the length
      message: it is the only check such an address fails. */
  lemma EmailChecksInOrder(value: string)
    requires IsEmail(Trim(value)) && |Trim(value)| > 254
    ensures FieldRule("email", value, false) == Some("Email address is too long")
  {
  }

  /** The emptiness check comes first: a blank address also fails the
      pattern, yet it gets the "enter" message. */
  lemma BlankEmailGetsEnterMessage(value: string, required: bool)
    requires AllSpace(value)
    ensures !IsEmail(Trim(value))
    ensures FieldRule("email", value, required) == Some("Please enter your email address")
  {
    TrimEmptyIffAllSpace(value);
    assert Trim(value) == "";
  }

  /** A blank phone number also fails the pattern, yet it gets the "enter"
      message. */
  lemma BlankPhoneGetsEnterMessage(value: string, required: bool)
    requires AllSpace(value)
    ensures !IsPhone(Trim(value))
    ensures FieldRule("phone", value, required) == Some("Please enter your phone number")
  {
    TrimEmptyIffAllSpace(value);
    assert Trim(value) == "";
  }

  /** A blank message is also under 10 characters, yet it gets the "enter"
      message. */
  lemma BlankMessageGetsEnterMessage(value: string, required: bool)
    requires AllSpace(value)
    ensures |Trim(value)| < 10
    ensures FieldRule("message", value, required) == Some("Please enter your message")
  {
    TrimEmptyIffAllSpace(value);
    assert Trim(value) == "";
  }

  /** The pattern check comes before the length check: an address that
      fails both gets the format message. */
  lemma FormatBeforeLength(value: string, required: bool)
    requires !IsEmail(Trim(value)) && |Trim(value)| > 254
    ensures FieldRule("email", value, required) == Some("Please enter a valid email address")
  {
  }

  /** A message of one to nine characters, or of more than 2000, gets the
      message of the bound it misses, never the "enter" message. */
  lemma MessageBounds(value: string, required: bool)
    requires Trim(value) != ""
    ensures |Trim(value)| < 10 ==>
      FieldRule("message", value, required) == Some("Please enter your message (at least 10 characters)")
    ensures |Trim(value)| > 2000 ==>
      FieldRule("message", value, required) == Some("Message is too long (maximum 2000 characters)")
  {
  }

  /** addError: mark the group `has-error` and, when the group has no
      `.error-message` yet, insert one; a field with an id is linked to it
      through `aria-describedby`. */
  function AddError(f: Field, message: string): (r: Field)
    ensures r.name == f.name && r.id == f.id && r.value == f.value && r.required == f.required
    ensures f.group.None? ==> r == f
    ensures f.group.Some? ==> r.group.Some? && r.group.value.classes == f.group.value.classes + {HasError}
    ensures f.group.Some? && |f.group.value.errors| > 0 ==>
      r.group.value.errors == f.group.value.errors && r.describedBy == f.describedBy
    ensures f.group.Some? && |f.group.value.errors| == 0 ==>
      |r.group.value.errors| == 1 &&
      r.group.value.errors[0].text == (if message == "" then DefaultMessage else message)
    ensures f.group.Some? && |f.group.value.errors| == 0 && f.id != "" ==>
      r.describedBy == f.id + "-error" && r.group.value.errors[0].id == f.id + "-error"
    ensures f.group.Some? && |f.group.value.errors| == 0 && f.id == "" ==>
      r.describedBy == f.describedBy && r.group.value.errors[0].id == ""
  {
    var msg := if message == "" then DefaultMessage else message;
    match f.group
    case None => f
    case Some(g) =>
      var marked := g.(classes := g.classes + {HasError});
      if |g.errors| == 0 then
        var errorId := if f.id != "" then f.id + "-error" else "";
        f.(describedBy := if f.id != "" then errorId else f.describedBy,
           group := Some(marked.(errors := [ErrorMessage(errorId, msg)])))
      else
        f.(group := Some(marked))
  }

  /** A group shows exactly one verdict, and an error message exactly when
      the verdict is an error. */
  predicate WellFormed(g: Group) {
    && ((HasError in g.classes) != (HasSuccess in g.classes))
    && |g.errors| <= 1
    && (|g.errors| == 1 <==> HasError in g.classes)
  }

  /** validateField: the verdict and the field after its group is updated. */
  function Validate(f: Field): (res: (bool, Field))
    ensures res.0 <==> f.name != "" && f.group.Some? && Acceptable(f.name, f.value, f.required)
    ensures f.name == "" || f.group.None? ==> res.1 == f
    ensures res.1.name == f.name && res.1.id == f.id && res.1.value == f.value && res.1.required == f.required
    ensures res.1.defaultValue == f.defaultValue
    ensures res.0 ==> res.1.describedBy == f.describedBy && res.1.group.Some? && res.1.group.value.errors == []
    ensures f.name != "" && f.group.Some? ==>
      && res.1.group.Some?
      && WellFormed(res.1.group.value)
      && (HasSuccess in res.1.group.value.classes <==> res.0)
      && res.1.group.value.classes - {HasError, HasSuccess} == f.group.value.classes - {HasError, HasSuccess}
  {
    if f.name == "" then (false, f)
    else match f.group
      case None => (false, f)
      case Some(g) =>
        var cleared := f.(group := Some(g.(classes := g.classes - {HasError, HasSuccess}, errors := [])));
        match FieldRule(f.name, f.value, f.required)
        case Some(message) => (false, AddError(cleared, message))
        case None => (true, cleared.(group := Some(cleared.group.value.(classes := cleared.group.value.classes + {HasSuccess}))))
  }

  /** A field with an id that fails validation points at its message through
      `aria-describedby`, and the message carries that id. */
  lemma {:induction false} InvalidFieldIsDescribed(f: Field)
    requires f.name != "" && f.group.Some? && f.id != ""
    requires !Acceptable(f.name, f.value, f.required)
    ensures var r := Validate(f).1;
      r.describedBy == f.id + "-error" && r.group.Some? &&
      |r.group.value.errors| == 1 && r.group.value.errors[0].id == f.id + "-error" &&
      r.group.value.errors[0].text == FieldRule(f.name, f.value, f.required).value
  {
    var g := f.group.value;
    var cleared := f.(group := Some(g.(classes := g.classes - {HasError, HasSuccess}, errors := [])));
    assert Validate(f).1 == AddError(cleared, FieldRule(f.name, f.value, f.required).value);
  }

  /** A field with an id that was invalid and is then corrected loses its
      message, but its `aria-describedby` still names the removed
      `id-error` element. */
  lemma {:induction false} CorrectedFieldKeepsStaleLink(f: Field, v: string)
    requires f.name != "" && f.group.Some? && f.id != ""
    requires !Acceptable(f.name, f.value, f.required) && Acceptable(f.name, v, f.required)
    ensures var r := Validate(Validate(f).1.(value := v));
      r.0 && r.1.describedBy == f.id + "-error" && r.1.group.value.errors == []
  {
    InvalidFieldIsDescribed(f);
  }

  /** Validating twice gives the same verdict and the same field as
      validating once (keyup and change both fire on an unchanged value). */
  lemma ValidateIdempotent(f: Field)
    ensures Validate(Validate(f).1) == Validate(f)
  {
  }

  /** One `.form-feedback` banner. */
  datatype Feedback = Feedback(className: string, role: string, ariaLive: string, text: string)

  /** The banner showFormFeedback builds for a non-empty type and message. */
  function FeedbackFor(kind: string, message: string): (b: Feedback)
    ensures b.text == message
    ensures kind == "success" ==> b.className == "form-feedback success" && b.role == "status" && b.ariaLive == "polite"
    ensures kind != "success" ==> b.className == "form-feedback error" && b.role == "alert" && b.ariaLive == "assertive"
  {
    if kind == "success" then Feedback("form-feedback success", "status", "polite", message)
    else Feedback("form-feedback error", "alert", "assertive", message)
  }

  const SuccessMessage := "Thank you for contacting us! We will get back to you soon."
  const FixErrorsMessage := "Please fix the errors in the form before submitting."

  /** What a successful submit leaves behind: the form's `reset()` puts the
      default value back and the group loses `focused`, `has-error` and
      `has-success`. */
  function ResetField(f: Field): (r: Field)
    ensures r.value == f.defaultValue && r.defaultValue == f.defaultValue
    ensures r.name == f.name && r.id == f.id && r.describedBy == f.describedBy && r.required == f.required
    ensures f.group.Some? ==>
      && r.group.Some?
      && r.group.value.classes == f.group.value.classes - {Focused, HasError, HasSuccess}
      && r.group.value.errors == f.group.value.errors
    ensures f.group.None? ==> r.group.None?
  {
    f.(value := f.defaultValue, group := match f.group
      case None => None
      case Some(g) => Some(g.(classes := g.classes - {Focused, HasError, HasSuccess})))
  }

  /** After a successful submit no group shows a verdict or an error
      message. */
  lemma {:induction false} ResetAfterValidClearsGroup(f: Field)
    requires Validate(f).0
    ensures var r := ResetField(Validate(f).1);
      r.group.Some? && r.group.value.errors == [] &&
      HasError !in r.group.value.classes && HasSuccess !in r.group.value.classes &&
      Focused !in r.group.value.classes
  {
    var r := Validate(f).1;
    assert WellFormed(r.group.value) && HasSuccess in r.group.value.classes;
  }

  /** The form's fields in document order and the feedback banners shown. */
  class ContactForm {
    const fields: array<Field>
    var feedback: seq<Feedback>

    /** At most one `.form-feedback` exists at any time. */
    ghost predicate Valid()
      reads this
    {
      |feedback| <= 1
    }

    constructor (initial: seq<Field>)
      ensures Valid() && fresh(fields) && fields[..] == initial && feedback == []
    {
      fields := new Field[|initial|](i requires 0 <= i < |initial| => initial[i]);
      feedback := [];
    }

    /** The `focus` handler: the parent, if any, gains `focused`. */
    method OnFocus(i: nat)
      requires i < fields.Length
      modifies fields
      ensures fields[i].group.Some? <==> old(fields[i]).group.Some?
      ensures old(fields[i]).group.None? ==> fields[i] == old(fields[i])
      ensures old(fields[i]).group.Some? ==>
        fields[i] == old(fields[i]).(group := Some(old(fields[i]).group.value.(classes := old(fields[i]).group.value.classes + {Focused})))
      ensures forall k :: 0 <= k < fields.Length && k != i ==> fields[k] == old(fields[k])
    {
      var f := fields[i];
      if f.group.Some? {
        var g := f.group.value;
        fields[i] := f.(group := Some(g.(classes := g.classes + {Focused})));
      }
    }

    /** validateField on field `i`. */
    method ValidateField(i: nat) returns (ok: bool)
      requires i < fields.Length
      modifies fields
      ensures (ok, fields[i]) == Validate(old(fields[i]))
      ensures forall k :: 0 <= k < fields.Length && k != i ==> fields[k] == old(fields[k])
    {
      var f := fields[i];
      var res := Validate(f);
      ok := res.0;
      fields[i] := res.1;
    }

    /** The `blur` handler: an empty field's group loses `focused`; then the
        field is validated. */
    method OnBlur(i: nat)
      requires i < fields.Length
      modifies fields
      ensures var f := old(fields[i]);
        var unfocused := if f.group.Some? && f.value == ""
          then f.(group := Some(f.group.value.(classes := f.group.value.classes - {Focused})))
          else f;
        fields[i] == Validate(unfocused).1
      ensures forall k :: 0 <= k < fields.Length && k != i ==> fields[k] == old(fields[k])
    {
      var f := fields[i];
      if f.group.Some? && f.value == "" {
        var g := f.group.value;
        fields[i] := f.(group := Some(g.(classes := g.classes - {Focused})));
      }
      var _ := ValidateField(i);
    }

    /** showFormFeedback: with a type and a message, every earlier banner is
        removed and exactly one new one is shown. */
    method ShowFormFeedback(kind: string, message: string)
      requires Valid()
      modifies this`feedback
      ensures Valid()
      ensures kind == "" || message == "" ==> feedback == old(feedback)
      ensures kind != "" && message != "" ==> feedback == [FeedbackFor(kind, message)]
    {
      if kind != "" && message != "" {
        feedback := [FeedbackFor(kind, message)];
      }
    }

    /** The `each` loop of the submit handler: every field is validated,
        none skipped, and the verdict is the conjunction of theirs. */
    method ValidateAll() returns (valid: bool)
      modifies fields
      ensures valid <==> forall k :: 0 <= k < fields.Length ==> Validate(old(fields[k])).0
      ensures forall k :: 0 <= k < fields.Length ==> fields[k] == Validate(old(fields[k])).1
    {
      valid := true;
      var i := 0;
      while i < fields.Length
        invariant 0 <= i <= fields.Length
        invariant valid <==> forall k :: 0 <= k < i ==> Validate(old(fields[k])).0
        invariant forall k :: 0 <= k < i ==> fields[k] == Validate(old(fields[k])).1
        invariant forall k :: i <= k < fields.Length ==> fields[k] == old(fields[k])
      {
        var ok := ValidateField(i);
        if !ok {
          valid := false;
        }
        i := i + 1;
      }
    }

    /** `contactForm[0].reset()` and the removal of the group classes. */
    method ResetAll()
      modifies fields
      ensures forall k :: 0 <= k < fields.Length ==> fields[k] == ResetField(old(fields[k]))
    {
      var j := 0;
      while j < fields.Length
        invariant 0 <= j <= fields.Length
        invariant forall k :: 0 <= k < j ==> fields[k] == ResetField(old(fields[k]))
        invariant forall k :: j <= k < fields.Length ==> fields[k] == old(fields[k])
      {
        fields[j] := ResetField(fields[j]);
        j := j + 1;
      }
    }

    /** The `submit` handler: the form is valid iff each field is. A valid
        form is reset and thanked, an invalid one told to fix its errors. */
    method Submit() returns (valid: bool)
      requires Valid()
      modifies fields, this`feedback
      ensures Valid()
      ensures valid <==> forall k :: 0 <= k < fields.Length ==> Validate(old(fields[k])).0
      ensures forall k :: 0 <= k < fields.Length ==>
        fields[k] == if valid then ResetField(Validate(old(fields[k])).1) else Validate(old(fields[k])).1
      ensures feedback == [if valid then FeedbackFor("success", SuccessMessage) else FeedbackFor("error", FixErrorsMessage)]
    {
      valid := ValidateAll();
      if valid {
        ShowFormFeedback("success", SuccessMessage);
        ResetAll();
      } else {
        ShowFormFeedback("error", FixErrorsMessage);
      }
    }
  }
}
