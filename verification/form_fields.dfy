/** Form classification and validation decisions of `BahrNaturalsFormHandler`
    (js/form-handler.js). DOM elements are replaced by the attributes the
    handler reads from them; error display is replaced by the returned result. */
module FormFields {
  import opened Wrappers
  import opened Text
  import opened Pattern
  import opened ValidationRules
  import opened Formatters

  datatype FormType = Newsletter | Contact | Checkout | Generic

  /** `getFormType`: the first of newsletter, contact and checkout whose
      class the form carries, else generic. */
  function GetFormType(classes: set<string>): (r: FormType)
    ensures r == Newsletter <==> "newsletter-form" in classes
    ensures r == Contact <==> "contact-form" in classes && "newsletter-form" !in classes
    ensures r == Checkout <==> "checkout-form" in classes && "contact-form" !in classes && "newsletter-form" !in classes
    ensures r == Generic <==> "checkout-form" !in classes && "contact-form" !in classes && "newsletter-form" !in classes
  {
    if "newsletter-form" in classes then Newsletter
    else if "contact-form" in classes then Contact
    else if "checkout-form" in classes then Checkout
    else Generic
  }

  /** The submit listener only handles forms matching
      `.contact-form, .newsletter-form, .checkout-form`. */
  predicate HandledOnSubmit(classes: set<string>) {
    "contact-form" in classes || "newsletter-form" in classes || "checkout-form" in classes
  }

  /** So the generic submission branch is never reached from that listener. */
  lemma HandledFormsAreNotGeneric(classes: set<string>)
    requires HandledOnSubmit(classes)
    ensures GetFormType(classes) != Generic
  {
  }

  /** The attributes of an input, textarea or select that validation reads:
      its value, the `required` attribute, `data-validate` (`None` when
      absent), its name and its type. */
  datatype Field = Field(value: string, required: bool, validate: Option<string>, name: string, inputType: string)

  /** The field type a lower-cased field name implies: the first of
      'email', 'phone' or 'tel', 'name', 'postal' or 'zip' it contains. */
  function KeywordType(name: string): (r: Option<string>)
    ensures Contains(name, "email") ==> r == Some("email")
    ensures !Contains(name, "email") && (Contains(name, "phone") || Contains(name, "tel")) ==> r == Some("phone")
    ensures !Contains(name, "email") && !Contains(name, "phone") && !Contains(name, "tel") && Contains(name, "name") ==>
      r == Some("name")
    ensures !Contains(name, "email") && !Contains(name, "phone") && !Contains(name, "tel") && !Contains(name, "name") ==>
      r == if Contains(name, "postal") || Contains(name, "zip") then Some("postalCode") else None
  {
    if Contains(name, "email") then Some("email")
    else if Contains(name, "phone") || Contains(name, "tel") then Some("phone")
    else if Contains(name, "name") then Some("name")
    else if Contains(name, "postal") || Contains(name, "zip") then Some("postalCode")
    else None
  }

  /** `getFieldType`: a non-empty `data-validate` wins; then the type the
      lower-cased name implies; otherwise the input's own type. */
  function GetFieldType(f: Field): (r: string)
    ensures f.validate.Some? && f.validate.value != "" ==> r == f.validate.value
    ensures (f.validate.None? || f.validate.value == "") && KeywordType(ToLower(f.name)).Some? ==>
      r == KeywordType(ToLower(f.name)).value
    ensures (f.validate.None? || f.validate.value == "") && KeywordType(ToLower(f.name)).None? ==> r == f.inputType
  {
    if f.validate.Some? && f.validate.value != "" then f.validate.value
    else KeywordType(ToLower(f.name)).GetOr(f.inputType)
  }

  /** The name-based classification ignores the case of the name. */
  lemma GetFieldTypeIgnoresCase(f: Field)
    ensures GetFieldType(f.(name := ToUpper(f.name))) == GetFieldType(f)
  {
    CaseMappingFacts(f.name);
  }

  /** 'tel' is searched anywhere in the name, so a field named 'hotel' is
      validated as a phone number. */
  lemma TelInsideWordIsPhone(value: string, required: bool)
    ensures GetFieldType(Field(value, required, None, "hotel", "text")) == "phone"
  {
    var name := ToLower("hotel");
    assert name == "hotel";
    assert OccursAt(name, "tel", 2);
  }

  datatype FieldResult = Valid | Invalid(message: string)

  const RequiredMessage := "This field is required"

  /** `validateField`: on the trimmed value, a blank required field fails
      with the required message and any other blank field passes; a non-blank
      value with a rule for the field's type passes exactly when the rule's
      pattern matches; with no rule, an e-mail input must still look like an
      address; everything else passes. */
  function ValidateField(f: Field): (r: FieldResult)
    ensures var v := Trim(f.value);
      && (v == "" ==> r == if f.required then Invalid(RequiredMessage) else Valid)
      && (v != "" && RuleFor(GetFieldType(f)).Some? ==>
            var rule := RuleFor(GetFieldType(f)).value;
            r == if Matches(rule.pattern, v) then Valid else Invalid(rule.message))
      && (v != "" && RuleFor(GetFieldType(f)).None? ==>
            r == if f.inputType == "email" && !IsValidEmail(v) then Invalid(EmailMessage) else Valid)
  {
    Verdict(f.required, GetFieldType(f), f.inputType, Trim(f.value))
  }

  /** The decision of `validateField` on an already trimmed value. */
  function Verdict(required: bool, fieldType: string, inputType: string, value: string): FieldResult {
    if required && value == "" then Invalid(RequiredMessage)
    else if value != "" && RuleFor(fieldType).Some? then
      var rule := RuleFor(fieldType).value;
      if Matches(rule.pattern, value) then Valid else Invalid(rule.message)
    else if inputType == "email" && value != "" && !IsValidEmail(value) then Invalid(EmailMessage)
    else Valid
  }

  /** Validation only sees the trimmed value: surrounding white space never
      changes the outcome. */
  lemma ValidateFieldIgnoresPadding(f: Field)
    ensures ValidateField(f.(value := Trim(f.value))) == ValidateField(f)
  {
    var g := f.(value := Trim(f.value));
    TrimIdempotent(f.value);
    assert Trim(g.value) == Trim(f.value);
    assert GetFieldType(g) == GetFieldType(f);
    assert ValidateField(g) == Verdict(f.required, GetFieldType(f), f.inputType, Trim(f.value));
  }

  /** A value of white space only is blank: it fails exactly when the field
      is required. */
  lemma BlankFieldDecision(f: Field)
    requires forall k :: 0 <= k < |f.value| ==> IsSpace(f.value[k])
    ensures ValidateField(f) == if f.required then Invalid(RequiredMessage) else Valid
  {
    TrimBlank(f.value);
  }

  /** A name field passes exactly when it is optional and blank, or its
      trimmed value is 2 to 50 letters and spaces. */
  lemma NameFieldDecision(f: Field)
    requires GetFieldType(f) == "name"
    ensures ValidateField(f).Valid? <==> (!f.required && Trim(f.value) == "") || NameShape(Trim(f.value))
  {
    NameRuleShape(Trim(f.value));
  }

  /** A postal-code field passes exactly when it is optional and blank, or
      its trimmed value is a Canadian postal code. */
  lemma PostalCodeFieldDecision(f: Field)
    requires GetFieldType(f) == "postalCode"
    ensures ValidateField(f).Valid? <==> (!f.required && Trim(f.value) == "") || PostalCodeShape(Trim(f.value))
  {
    PostalCodeRuleShape(Trim(f.value));
  }

  /** An e-mail field passes exactly when it is optional and blank, or its
      trimmed value is an address of the shape `local@domain.tld`. */
  lemma EmailFieldDecision(f: Field)
    requires GetFieldType(f) == "email"
    ensures ValidateField(f).Valid? <==> (!f.required && Trim(f.value) == "") || EmailShape(Trim(f.value))
  {
    EmailRuleShape(Trim(f.value));
    if Trim(f.value) == "" {
      assert !EmailShape("");
    }
  }

  /** A postal-code field holding a formatted code validates. */
  lemma FormattedPostalCodeFieldValid(f: Field, typed: string)
    requires GetFieldType(f) == "postalCode"
    requires CompactPostalCode(CleanPostalCode(typed)) && f.value == FormatPostalCode(typed)
    ensures ValidateField(f) == Valid
  {
    FormattedPostalCodeTrimmed(typed);
    FormattedPostalCodeValid(typed);
    AcceptedByRule(f, PostalCodePattern, PostalCodeMessage);
  }

  /** A formatted postal code has no surrounding white space. */
  lemma FormattedPostalCodeTrimmed(typed: string)
    requires CompactPostalCode(CleanPostalCode(typed))
    ensures Trim(FormatPostalCode(typed)) == FormatPostalCode(typed) != ""
  {
    var v := FormatPostalCode(typed);
    var c := CleanPostalCode(typed);
    assert v[..3] + v[4..] == c;
    assert v[0] == c[0] && v[6] == c[5];
    TrimUnpadded(v);
  }

  /** A formatted ten-digit number has no surrounding white space. */
  lemma FormattedPhoneNumberTrimmed(typed: string)
    requires |Digits(typed)| == 10
    ensures Trim(FormatPhoneNumber(typed)) == FormatPhoneNumber(typed) != ""
  {
    var d := Digits(typed);
    var v := FormatPhoneNumber(typed);
    PhoneLayoutEnds(d);
    assert v == PhoneLayout(d);
    TrimUnpadded(v);
  }

  /** A phone field holding a formatted ten-digit number validates. */
  lemma FormattedPhoneFieldValid(f: Field, typed: string)
    requires GetFieldType(f) == "phone"
    requires |Digits(typed)| == 10 && f.value == FormatPhoneNumber(typed)
    ensures ValidateField(f) == Valid
  {
    FormattedPhoneNumberTrimmed(typed);
    FormattedPhoneNumberValid(typed);
    AcceptedByRule(f, PhonePattern, PhoneMessage);
  }

  /** A trimmed, non-blank value that its field's rule accepts validates. */
  lemma AcceptedByRule(f: Field, pattern: seq<Piece>, message: string)
    requires RuleFor(GetFieldType(f)) == Some(Rule(pattern, message))
    requires Trim(f.value) == f.value != "" && Matches(pattern, f.value)
    ensures ValidateField(f) == Valid
  {
  }

  /** `validateForm`: every field is validated, none skipped after a failure
      (each shows its own error), and the form passes exactly when all do. */
  method ValidateForm(fields: seq<Field>) returns (valid: bool, results: seq<FieldResult>)
    ensures |results| == |fields|
    ensures forall i :: 0 <= i < |fields| ==> results[i] == ValidateField(fields[i])
    ensures valid <==> forall i :: 0 <= i < |fields| ==> ValidateField(fields[i]).Valid?
  {
    results := [];
    var i := 0;
    while i < |fields|
      invariant 0 <= i <= |fields|
      invariant |results| == i
      invariant forall k :: 0 <= k < i ==> results[k] == ValidateField(fields[k])
    {
      var r := ValidateField(fields[i]);
      results := results + [r];
      i := i + 1;
    }
    valid := AllValid(results);
  }

  /** Every result is a pass. */
  predicate AllValid(results: seq<FieldResult>) {
    forall i :: 0 <= i < |results| ==> results[i].Valid?
  }
}
