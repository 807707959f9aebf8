/**
 * The lead form: eight text fields, a validator that recomputes the error map
 * from the current values, and the submit / complete / clear-success steps.
 */
module ContactForm {
  import opened Wrappers
  import opened Strings

  datatype Field = Name | Email | Phone | Address | PropertyType | RoofType | MonthlyBill | Message

  const AllFields: set<Field> := {Name, Email, Phone, Address, PropertyType, RoofType, MonthlyBill, Message}

  const NameRequired := "Name is required"
  const EmailRequired := "Email is required"
  const EmailInvalid := "Email is invalid"
  const PhoneRequired := "Phone is required"
  const PhoneTooShort := "Phone must be at least 10 digits"
  const AddressRequired := "Address is required"

  /** The minimum count of digits in a phone number. */
  const MinPhoneDigits: nat := 10

  lemma AllFieldsComplete(f: Field)
    ensures f in AllFields
  {
    match f
    case Name =>
    case Email =>
    case Phone =>
    case Address =>
    case PropertyType =>
    case RoofType =>
    case MonthlyBill =>
    case Message =>
  }

  /** The values of the eight fields. */
  datatype FormData = FormData(name: string, email: string, phone: string, address: string,
                               propertyType: string, roofType: string, monthlyBill: string, message: string)
  {
    function Get(f: Field): string {
      match f
      case Name => name
      case Email => email
      case Phone => phone
      case Address => address
      case PropertyType => propertyType
      case RoofType => roofType
      case MonthlyBill => monthlyBill
      case Message => message
    }

    /** `{...prev, [f]: value}`: one field replaced, the others kept. */
    function Set(f: Field, value: string): (d: FormData)
      ensures d.Get(f) == value
      ensures forall g | g != f :: d.Get(g) == Get(g)
    {
      match f
      case Name => this.(name := value)
      case Email => this.(email := value)
      case Phone => this.(phone := value)
      case Address => this.(address := value)
      case PropertyType => this.(propertyType := value)
      case RoofType => this.(roofType := value)
      case MonthlyBill => this.(monthlyBill := value)
      case Message => this.(message := value)
    }
  }

  /** The form as it starts and as completion leaves it. */
  const InitialData := FormData("", "", "", "", "residential", "asphalt", "", "")

  /** `/\S+@\S+\.\S+/` matches somewhere in `s`. */
  predicate MatchesEmailPattern(s: string) {
    exists at, dot | 0 < at && at + 1 < dot && dot + 1 < |s| :: EmailShapeAt(s, at, dot)
  }

  /** A non-space character, `@` at `at`, non-space characters up to `.` at `dot`,
      and a non-space character after it: since `@` and `.` are themselves
      non-space, a run of one character on each side is enough for `\S+`. */
  predicate EmailShapeAt(s: string, at: int, dot: int)
    requires 0 < at && at + 1 < dot && dot + 1 < |s|
  {
    s[at] == '@' && s[dot] == '.' && !IsSpace(s[at - 1]) && !IsSpace(s[dot + 1]) && NonSpaceRun(s, at + 1, dot)
  }

  /** `s[i..j]` holds no white space. */
  predicate NonSpaceRun(s: string, i: int, j: int)
    requires 0 <= i <= j <= |s|
  {
    forall m | i <= m < j :: !IsSpace(s[m])
  }

  predicate IsDigit(c: char) {
    '0' <= c <= '9'
  }

  /** `s.replace(/\D/g, '')`: the ASCII digits of `s`, in order. */
  function Digits(s: string): (r: string)
    ensures |r| <= |s|
    ensures forall k | 0 <= k < |r| :: IsDigit(r[k])
  {
    if s == [] then [] else (if IsDigit(s[0]) then [s[0]] else []) + Digits(s[1..])
  }

  /** The fields that `validate` checks. */
  predicate Required(f: Field) {
    f == Name || f == Email || f == Phone || f == Address
  }

  /** The message a field's value earns, if any. */
  function FieldError(f: Field, value: string): (e: Option<string>)
    ensures e.Some? ==> e.value != ""
    ensures e.Some? ==> Required(f)
  {
    match f
    case Name => if Trim(value) == "" then Some(NameRequired) else None
    case Email =>
      if Trim(value) == "" then Some(EmailRequired)
      else if !MatchesEmailPattern(value) then Some(EmailInvalid)
      else None
    case Phone =>
      if Trim(value) == "" then Some(PhoneRequired)
      else if |Digits(value)| < MinPhoneDigits then Some(PhoneTooShort)
      else None
    case Address => if Trim(value) == "" then Some(AddressRequired) else None
    case PropertyType => None
    case RoofType => None
    case MonthlyBill => None
    case Message => None
  }

  /** Records the error of one field, if it has one. */
  function AddError(errors: map<Field, string>, f: Field, e: Option<string>): map<Field, string> {
    if e.Some? then errors[f := e.value] else errors
  }

  /** The error map that validation produces, field after field: only the four checked
      fields can appear in it. */
  function ValidationErrors(data: FormData): (errors: map<Field, string>)
    ensures errors.Keys <= {Name, Email, Phone, Address}
  {
    var e1 := AddError(map[], Name, FieldError(Name, data.name));
    var e2 := AddError(e1, Email, FieldError(Email, data.email));
    var e3 := AddError(e2, Phone, FieldError(Phone, data.phone));
    AddErrorKeys(map[], Name, FieldError(Name, data.name));
    AddErrorKeys(e1, Email, FieldError(Email, data.email));
    AddErrorKeys(e2, Phone, FieldError(Phone, data.phone));
    AddErrorKeys(e3, Address, FieldError(Address, data.address));
    AddError(e3, Address, FieldError(Address, data.address))
  }

  /** The checks of `validate`, field after field, on the current values. */
  method CheckFields(data: FormData) returns (newErrors: map<Field, string>)
    ensures newErrors == ValidationErrors(data)
  {
    newErrors := map[];
    NameStep(newErrors, data.name);
    if Trim(data.name) == "" {
      newErrors := newErrors[Name := NameRequired];
    }
    EmailStep(newErrors, data.email);
    if Trim(data.email) == "" {
      newErrors := newErrors[Email := EmailRequired];
    } else if !MatchesEmailPattern(data.email) {
      newErrors := newErrors[Email := EmailInvalid];
    }
    PhoneStep(newErrors, data.phone);
    if Trim(data.phone) == "" {
      newErrors := newErrors[Phone := PhoneRequired];
    } else if |Digits(data.phone)| < MinPhoneDigits {
      newErrors := newErrors[Phone := PhoneTooShort];
    }
    AddressStep(newErrors, data.address);
    if Trim(data.address) == "" {
      newErrors := newErrors[Address := AddressRequired];
    }
  }

  class Form {
    var formData: FormData
    var errors: map<Field, string>
    var isSubmitting: bool
    var isSuccess: bool

    /** Every error shown is a non-empty message. */
    predicate Valid()
      reads this
    {
      forall f | f in errors :: errors[f] != ""
    }

    constructor ()
      ensures formData == InitialData && errors == map[]
      ensures !isSubmitting && !isSuccess
      ensures Valid()
    {
      formData := InitialData;
      errors := map[];
      isSubmitting := false;
      isSuccess := false;
    }

    /** `validate`: rebuilds the error map field by field from the current values;
        the form is valid when the map is empty. */
    method Validate() returns (ok: bool)
      modifies this
      ensures errors == ValidationErrors(formData)
      ensures ok <==> errors == map[]
      ensures formData == old(formData) && isSubmitting == old(isSubmitting) && isSuccess == old(isSuccess)
      ensures Valid()
    {
      var newErrors := CheckFields(formData);
      errors := newErrors;
      ok := newErrors == map[];
      ValidationErrorsMessages(formData);
    }

    /** `handleChange`: sets one field and drops that field's error if one is shown. */
    method HandleChange(f: Field, value: string)
      requires Valid()
      modifies this
      ensures formData == old(formData).Set(f, value)
      ensures errors == if f in old(errors) && old(errors)[f] != "" then old(errors) - {f} else old(errors)
      ensures errors == old(errors) - {f}
      ensures isSubmitting == old(isSubmitting) && isSuccess == old(isSuccess)
      ensures Valid()
    {
      formData := formData.Set(f, value);
      if f in errors && errors[f] != "" {
        errors := errors - {f};
      }
    }

    /** `handleSubmit`: validates, and starts submitting only when nothing failed. */
    method HandleSubmit()
      modifies this
      ensures errors == ValidationErrors(formData)
      ensures isSubmitting == (old(isSubmitting) || errors == map[])
      ensures formData == old(formData) && isSuccess == old(isSuccess)
      ensures Valid()
    {
      var ok := Validate();
      if !ok {
        return;
      }
      isSubmitting := true;
    }

    /** The end of the simulated request: the form is reset and success is shown. */
    method CompleteSubmission()
      requires Valid()
      modifies this
      ensures formData == InitialData && !isSubmitting && isSuccess
      ensures errors == old(errors)
      ensures Valid()
    {
      isSubmitting := false;
      isSuccess := true;
      formData := InitialData;
    }

    /** The later step that hides the success message. */
    method ClearSuccess()
      requires Valid()
      modifies this
      ensures !isSuccess
      ensures formData == old(formData) && errors == old(errors) && isSubmitting == old(isSubmitting)
      ensures Valid()
    {
      isSuccess := false;
    }
  }

  // ---------------------------------------------------------------------------
  // Properties of the validation rules

  /** The error map holds exactly the failing fields, each with its message. */
  lemma ValidationErrorsExact(data: FormData, f: Field)
    ensures f in ValidationErrors(data) <==> FieldError(f, data.Get(f)).Some?
    ensures f in ValidationErrors(data) ==> ValidationErrors(data)[f] == FieldError(f, data.Get(f)).value
  {
    if f == Name {
      NameEntry(data);
    } else if f == Email {
      EmailEntry(data);
    } else if f == Phone {
      PhoneEntry(data);
    } else if f == Address {
      AddressEntry(data);
    } else {
      OptionalEntry(data, f);
    }
  }

  lemma NameEntry(data: FormData)
    ensures Name in ValidationErrors(data) <==> FieldError(Name, data.Get(Name)).Some?
    ensures Name in ValidationErrors(data) ==> ValidationErrors(data)[Name] == FieldError(Name, data.Get(Name)).value
  {
    ValidationErrorsChain(data);
    ChainEntries(FieldError(Name, data.name), FieldError(Email, data.email),
                 FieldError(Phone, data.phone), FieldError(Address, data.address));
  }

  lemma EmailEntry(data: FormData)
    ensures Email in ValidationErrors(data) <==> FieldError(Email, data.Get(Email)).Some?
    ensures Email in ValidationErrors(data) ==> ValidationErrors(data)[Email] == FieldError(Email, data.Get(Email)).value
  {
    ValidationErrorsChain(data);
    ChainEntries(FieldError(Name, data.name), FieldError(Email, data.email),
                 FieldError(Phone, data.phone), FieldError(Address, data.address));
  }

  lemma PhoneEntry(data: FormData)
    ensures Phone in ValidationErrors(data) <==> FieldError(Phone, data.Get(Phone)).Some?
    ensures Phone in ValidationErrors(data) ==> ValidationErrors(data)[Phone] == FieldError(Phone, data.Get(Phone)).value
  {
    ValidationErrorsChain(data);
    ChainEntries(FieldError(Name, data.name), FieldError(Email, data.email),
                 FieldError(Phone, data.phone), FieldError(Address, data.address));
  }

  lemma AddressEntry(data: FormData)
    ensures Address in ValidationErrors(data) <==> FieldError(Address, data.Get(Address)).Some?
    ensures Address in ValidationErrors(data) ==> ValidationErrors(data)[Address] == FieldError(Address, data.Get(Address)).value
  {
    ValidationErrorsChain(data);
    ChainEntries(FieldError(Name, data.name), FieldError(Email, data.email),
                 FieldError(Phone, data.phone), FieldError(Address, data.address));
  }

  /** `ValidationErrors` written as one chain of the four checks. */
  lemma ValidationErrorsChain(data: FormData)
    ensures ValidationErrors(data) == Chain(FieldError(Name, data.name), FieldError(Email, data.email),
                                            FieldError(Phone, data.phone), FieldError(Address, data.address))
  {
  }

  function Chain(n: Option<string>, e: Option<string>, p: Option<string>, a: Option<string>): map<Field, string> {
    AddError(AddError(AddError(AddError(map[], Name, n), Email, e), Phone, p), Address, a)
  }

  /** After the four checks, each checked field holds its own error, if it has one. */
  lemma ChainEntries(n: Option<string>, e: Option<string>, p: Option<string>, a: Option<string>)
    ensures var m := Chain(n, e, p, a);
      && (Name in m <==> n.Some?) && (n.Some? ==> m[Name] == n.value)
      && (Email in m <==> e.Some?) && (e.Some? ==> m[Email] == e.value)
      && (Phone in m <==> p.Some?) && (p.Some? ==> m[Phone] == p.value)
      && (Address in m <==> a.Some?) && (a.Some? ==> m[Address] == a.value)
  {
  }

  // Each check of `validate`, as written there, adds the field's `FieldError`.

  lemma NameStep(m: map<Field, string>, value: string)
    ensures AddError(m, Name, FieldError(Name, value)) ==
      (if Trim(value) == "" then m[Name := NameRequired] else m)
  {
  }

  lemma EmailStep(m: map<Field, string>, value: string)
    ensures AddError(m, Email, FieldError(Email, value)) ==
      (if Trim(value) == "" then m[Email := EmailRequired]
       else if !MatchesEmailPattern(value) then m[Email := EmailInvalid] else m)
  {
  }

  lemma PhoneStep(m: map<Field, string>, value: string)
    ensures AddError(m, Phone, FieldError(Phone, value)) ==
      (if Trim(value) == "" then m[Phone := PhoneRequired]
       else if |Digits(value)| < MinPhoneDigits then m[Phone := PhoneTooShort] else m)
  {
  }

  lemma AddressStep(m: map<Field, string>, value: string)
    ensures AddError(m, Address, FieldError(Address, value)) ==
      (if Trim(value) == "" then m[Address := AddressRequired] else m)
  {
  }

  lemma AddErrorOther(errors: map<Field, string>, f: Field, e: Option<string>, g: Field)
    requires g != f
    ensures g in AddError(errors, f, e) <==> g in errors
    ensures g in errors ==> AddError(errors, f, e)[g] == errors[g]
  {
  }

  lemma AddErrorKeys(errors: map<Field, string>, f: Field, e: Option<string>)
    ensures AddError(errors, f, e).Keys <= errors.Keys + {f}
  {
  }

  lemma OptionalEntry(data: FormData, f: Field)
    requires !Required(f)
    ensures f !in ValidationErrors(data) && FieldError(f, data.Get(f)).None?
  {
    var e1 := AddError(map[], Name, FieldError(Name, data.name));
    var e2 := AddError(e1, Email, FieldError(Email, data.email));
    var e3 := AddError(e2, Phone, FieldError(Phone, data.phone));
    AddErrorOther(map[], Name, FieldError(Name, data.name), f);
    AddErrorOther(e1, Email, FieldError(Email, data.email), f);
    AddErrorOther(e2, Phone, FieldError(Phone, data.phone), f);
    AddErrorOther(e3, Address, FieldError(Address, data.address), f);
  }

  /** Every message in the error map is non-empty. */
  lemma ValidationErrorsMessages(data: FormData)
    ensures forall f | f in ValidationErrors(data) :: ValidationErrors(data)[f] != ""
  {
    forall f | f in ValidationErrors(data) ensures ValidationErrors(data)[f] != "" {
      ValidationErrorsExact(data, f);
    }
  }

  /** Name and address are required: an error exactly when the value is blank. */
  lemma RequiredRule(f: Field, value: string)
    requires f == Name || f == Address
    ensures FieldError(f, value).Some? <==> IsBlank(value)
    ensures FieldError(f, value).Some? ==>
      FieldError(f, value).value == (if f == Name then "Name is required" else "Address is required")
  {
    TrimEmptyIffBlank(value);
  }

  /** A blank email is missing; a non-blank one is invalid exactly when the pattern does not match. */
  lemma EmailRule(value: string)
    ensures IsBlank(value) ==> FieldError(Email, value) == Some("Email is required")
    ensures !IsBlank(value) ==> (FieldError(Email, value).Some? <==> !MatchesEmailPattern(value))
    ensures !IsBlank(value) && FieldError(Email, value).Some? ==> FieldError(Email, value) == Some("Email is invalid")
  {
    TrimEmptyIffBlank(value);
  }

  /** A blank phone is missing; a non-blank one fails exactly when it has fewer than
      ten digits, whatever else it holds. */
  lemma PhoneRule(value: string)
    ensures IsBlank(value) ==> FieldError(Phone, value) == Some("Phone is required")
    ensures !IsBlank(value) ==> (FieldError(Phone, value).Some? <==> |Digits(value)| < 10)
    ensures !IsBlank(value) && FieldError(Phone, value).Some? ==>
      FieldError(Phone, value) == Some("Phone must be at least 10 digits")
  {
    TrimEmptyIffBlank(value);
  }

  /** Property type, roof type, monthly bill and message are never in error. */
  lemma OptionalFieldsPass(data: FormData)
    ensures ValidationErrors(data).Keys <= {Name, Email, Phone, Address}
    ensures forall f | !Required(f) :: FieldError(f, data.Get(f)).None?
  {
  }

  /** Submitting the untouched form reports the four required fields as missing. */
  lemma InitialFormErrors()
    ensures ValidationErrors(InitialData)
         == map[Name := "Name is required", Email := "Email is required",
                Phone := "Phone is required", Address := "Address is required"]
  {
    var d := InitialData;
    assert d.name == "" && d.email == "" && d.phone == "" && d.address == "";
    var m0: map<Field, string> := map[];
    var m1 := m0[Name := NameRequired];
    var m2 := m1[Email := EmailRequired];
    var m3 := m2[Phone := PhoneRequired];
    NameStep(m0, d.name);
    EmailStep(m1, d.email);
    PhoneStep(m2, d.phone);
    AddressStep(m3, d.address);
  }

  lemma {:induction false} DigitsAppend(a: string, b: string)
    ensures Digits(a + b) == Digits(a) + Digits(b)
    decreases |a|
  {
    if a == [] {
      assert a + b == b;
    } else {
      var ab := a + b;
      assert ab[0] == a[0];
      assert ab[1..] == a[1..] + b;
      DigitsAppend(a[1..], b);
    }
  }

  /** Formatting characters do not count: `(555) 123-4567` has ten digits. */
  lemma PhoneExample(p: string)
    requires p == "(555) 123-4567"
    ensures |Digits(p)| == 10
    ensures FieldError(Phone, p) == None
  {
    assert p == "(555) " + "123-4567";
    PhoneExampleDigits();
    assert !IsSpace(p[0]);
    TrimEmptyIffBlank(p);
  }

  lemma PhoneExampleDigits()
    ensures |Digits("(555) " + "123-4567")| == 10
  {
    DigitsAppend("(555) ", "123-4567");
    assert |Digits("(555) ")| == 3;
    assert |Digits("123-4567")| == 7;
  }

  /** A shape the email pattern accepts and one it rejects. */
  lemma EmailExamples(good: string, bad: string)
    requires good == "jane@example.com" && bad == "jane@example"
    ensures MatchesEmailPattern(good)
    ensures !MatchesEmailPattern(bad)
  {
    assert EmailShapeAt(good, 4, 12) by {
      assert good[4] == '@' && good[12] == '.';
      assert NonSpaceRun(good, 5, 12);
    }
    assert forall m | 0 <= m < |bad| :: bad[m] != '.';
  }
}
