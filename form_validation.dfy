/**
 * The field and step validation engine of src/utils/formValidation.ts:
 * a first-failure-wins rule evaluator over one dynamically typed value,
 * a step check that collects the failing fields of a rule table, and the
 * step validator built from a table of rule tables.
 */
module FormValidation {
  import opened Wrappers
  import opened JsValue
  import opened JsString

  /**
   * `ValidationOptions`. An absent flag is `false`; an absent length bound is
   * `None`. The `pattern` regular expression is kept opaque: only its `test`
   * verdict on a string matters here.
   */
  datatype ValidationOptions = ValidationOptions(
    required: bool,
    minLength: Option<int>,
    maxLength: Option<int>,
    pattern: Option<string -> bool>,
    isEmail: bool,
    isPhone: bool,
    isBusiness: bool)

  /** The `options = {}` default: no rule at all. */
  const NoOptions := ValidationOptions(false, None, None, None, false, false, false)

  /** A step validator: the step number and the record give the failing fields and their messages. */
  type StepValidator = (int, Record) -> map<string, string>

  /** The free webmail providers a business address must not use. */
  const FreeEmailDomains: seq<string> := [
    "gmail.com", "yahoo.com", "hotmail.com", "outlook.com",
    "aol.com", "icloud.com", "me.com", "mail.com",
    "protonmail.com", "zoho.com"
  ]

  // ---------------------------------------------------------------- messages

  function RequiredMessage(fieldName: string): string {
    fieldName + " is required"
  }

  function MinLengthMessage(fieldName: string, n: int): string {
    fieldName + " must be at least " + IntToDecimal(n) + " characters"
  }

  function MaxLengthMessage(fieldName: string, n: int): string {
    fieldName + " cannot exceed " + IntToDecimal(n) + " characters"
  }

  function FormatMessage(fieldName: string): string {
    fieldName + " format is invalid"
  }

  const EmailMessage := "Please enter a valid email address"
  const BusinessEmailMessage := "Please enter a business email address"
  const PhoneMessage := "Please enter a valid phone number"

  // ------------------------------------------------------------ single rules

  /** A length bound takes part only when it is truthy: present and not 0. */
  predicate IsSet(bound: Option<int>) {
    bound.Some? && bound.value != 0
  }

  /** The emptiness the `required` rule rejects: blank text, an empty list, `null`, `undefined`. */
  predicate IsEmptyValue(v: Value) {
    match v
    case Str(s) => Trim(s) == ""
    case Arr(items) => items == []
    case Null => true
    case Undefined => true
    case Bool(_) => false
  }

  /** The values an optional field skips every rule for: `''`, `null`, `undefined` (blank text is NOT among them). */
  predicate IsAbsentValue(v: Value) {
    v == Str("") || v == Null || v == Undefined
  }

  /** Neither whitespace nor `@`: one character of the class `[^\s@]`. */
  predicate IsPlain(c: char) {
    !IsWhitespace(c) && c != '@'
  }

  predicate AllPlain(t: string) {
    forall i | 0 <= i < |t| :: IsPlain(t[i])
  }

  /** The position of the first `c` in `s`, or `|s|` when there is none. */
  function IndexOf(s: string, c: char): (i: nat)
    ensures i <= |s|
    ensures i < |s| ==> s[i] == c
    ensures c !in s[..i]
  {
    if s == [] then 0
    else if s[0] == c then 0
    else
      var i := 1 + IndexOf(s[1..], c);
      assert s[..i] == [s[0]] + s[1..][..i - 1];
      i
  }

  /** A `c` with no `c` before it is the one `IndexOf` finds. */
  lemma {:induction false} IndexOfFirst(s: string, c: char, i: nat)
    requires i < |s| && s[i] == c && c !in s[..i]
    ensures IndexOf(s, c) == i
  {
    if i > 0 {
      assert s[0] == s[..i][0];
      assert s[1..][..i - 1] == s[..i][1..];
      IndexOfFirst(s[1..], c, i - 1);
    }
  }

  /**
   * The language of `/^[^\s@]+@[^\s@]+\.[^\s@]+$/`: three non-empty runs of
   * plain characters joined by an `@` and a `.`.
   */
  ghost predicate MatchesEmailRegex(s: string) {
    exists i, j | 0 <= i < j <= |s| ::
      EmailSplitAt(s, i, j)
  }

  /** `s[..i]`, `s[i+1..j]` and `s[j+1..]` are the three runs, `s[i]` the `@` and `s[j]` the `.`. */
  ghost predicate EmailSplitAt(s: string, i: int, j: int)
    requires 0 <= i < j <= |s|
  {
    && 0 < i && i + 1 < j && j + 1 < |s|
    && s[i] == '@' && s[j] == '.'
    && AllPlain(s[..i]) && AllPlain(s[i + 1..j]) && AllPlain(s[j + 1..])
  }

  /**
   * The email shape the engine checks: no whitespace, exactly one `@`, a
   * non-empty local part, and a domain with a `.` that is neither its first
   * nor its last character.
   */
  predicate IsEmailShape(s: string) {
    var at := IndexOf(s, '@');
    && (forall k | 0 <= k < |s| :: !IsWhitespace(s[k]))
    && 0 < at < |s|
    && '@' !in s[at + 1..]
    && var domain := s[at + 1..];
       |domain| >= 3 && '.' in domain[1..|domain| - 1]
  }

  /** The shape check is exactly the regular expression's language. */
  lemma EmailShapeIsRegex(s: string)
    ensures IsEmailShape(s) <==> MatchesEmailRegex(s)
  {
    if IsEmailShape(s) {
      EmailShapeMatchesRegex(s);
    }
    if MatchesEmailRegex(s) {
      RegexMatchIsEmailShape(s);
    }
  }

  /** A text of the checked shape splits into the regular expression's three runs. */
  lemma EmailShapeMatchesRegex(s: string)
    requires IsEmailShape(s)
    ensures MatchesEmailRegex(s)
  {
    var at := IndexOf(s, '@');
    var domain := s[at + 1..];
    var inner := domain[1..|domain| - 1];
    var k :| 0 <= k < |inner| && inner[k] == '.';
    var j := at + 2 + k;
    assert inner[k] == domain[1 + k] == s[j];
    assert forall m | 0 <= m < |s| && m != at :: s[m] != '@' by {
      forall m | 0 <= m < |s| && m != at ensures s[m] != '@' {
        if m < at { assert s[m] == s[..at][m]; } else { assert s[m] == domain[m - at - 1]; }
      }
    }
    assert EmailSplitAt(s, at, j);
  }

  /** A text in the regular expression's language has the checked shape. */
  lemma RegexMatchIsEmailShape(s: string)
    requires MatchesEmailRegex(s)
    ensures IsEmailShape(s)
  {
    var i, j :| 0 <= i < j <= |s| && EmailSplitAt(s, i, j);
    assert forall m | 0 <= m < |s| && m != i && m != j :: IsPlain(s[m]) by {
      forall m | 0 <= m < |s| && m != i && m != j ensures IsPlain(s[m]) {
        if m < i { assert s[m] == s[..i][m]; }
        else if m < j { assert s[m] == s[i + 1..j][m - i - 1]; }
        else { assert s[m] == s[j + 1..][m - j - 1]; }
      }
    }
    assert '@' !in s[..i];
    IndexOfFirst(s, '@', i);
    var at := IndexOf(s, '@');
    var domain := s[at + 1..];
    assert domain[1..|domain| - 1][j - i - 2] == '.';
  }

  /** `value.split('@')[1]`: the text after the first `@`, up to a second one if any. */
  function DomainOf(s: string): (d: string)
    requires '@' in s
  {
    var rest := s[IndexOf(s, '@') + 1..];
    rest[..IndexOf(rest, '@')]
  }

  /** The address's lower-cased domain is, character for character, one of the free providers. */
  predicate IsFreeEmailDomain(s: string)
    requires '@' in s
  {
    ToLower(DomainOf(s)) in FreeEmailDomains
  }

  /** The phone rule: at least ten ASCII digits, whatever else surrounds them. */
  predicate HasPhoneDigits(s: string) {
    |DigitsOnly(s)| >= 10
  }

  // --------------------------------------------------------- the field check

  /** The text rules, tried in source order; the first failing one decides the message. */
  function CheckString(s: string, fieldName: string, options: ValidationOptions): Option<string> {
    if IsSet(options.minLength) && Utf16Length(s) < options.minLength.value then
      Some(MinLengthMessage(fieldName, options.minLength.value))
    else if IsSet(options.maxLength) && Utf16Length(s) > options.maxLength.value then
      Some(MaxLengthMessage(fieldName, options.maxLength.value))
    else if options.pattern.Some? && !options.pattern.value(s) then
      Some(FormatMessage(fieldName))
    else if options.isEmail && !IsEmailShape(s) then
      Some(EmailMessage)
    else if options.isEmail && options.isBusiness && IsFreeEmailDomain(s) then
      Some(BusinessEmailMessage)
    else if options.isPhone && !HasPhoneDigits(s) then
      Some(PhoneMessage)
    else
      None
  }

  /** `validateField`: `None` is `null`, `Some(m)` the one error message. */
  function ValidateField(value: Value, fieldName: string, options: ValidationOptions): (r: Option<string>)
    ensures r.Some? ==> r.value != ""
  {
    if options.required && IsEmptyValue(value) then
      Some(RequiredMessage(fieldName))
    else if IsAbsentValue(value) && !options.required then
      None
    else
      match value
      case Str(s) => CheckString(s, fieldName, options)
      case Bool(b) => if options.required && !b then Some(RequiredMessage(fieldName)) else None
      case _ => None
  }

  // -------------------------------------- an order-free reading of the rules

  /** The text passes every rule that is switched on, in whatever order they are tried. */
  ghost predicate StringPasses(s: string, options: ValidationOptions) {
    && (IsSet(options.minLength) ==> Utf16Length(s) >= options.minLength.value)
    && (IsSet(options.maxLength) ==> Utf16Length(s) <= options.maxLength.value)
    && (options.pattern.Some? ==> options.pattern.value(s))
    && (options.isEmail ==> MatchesEmailRegex(s))
    && (options.isEmail && options.isBusiness && '@' in s ==> !IsFreeEmailDomain(s))
    && (options.isPhone ==> HasPhoneDigits(s))
  }

  /** The value is acceptable for a field with these options. */
  ghost predicate Accepts(value: Value, options: ValidationOptions) {
    match value
    case Str(s) =>
      if options.required then !IsBlank(s) && StringPasses(s, options)
      else s == "" || StringPasses(s, options)
    case Arr(items) => !options.required || items != []
    case Bool(b) => !options.required || b
    case Null => !options.required
    case Undefined => !options.required
  }

  /** `validateField` reports no error exactly when the value is acceptable: the order of the rules decides only which message is shown. */
  lemma ValidateFieldPassesIffAccepts(value: Value, fieldName: string, options: ValidationOptions)
    ensures ValidateField(value, fieldName, options) == None <==> Accepts(value, options)
  {
    if value.Str? {
      var s := value.s;
      TrimEmptyIffBlank(s);
      if options.required && IsBlank(s) {
        assert ValidateField(value, fieldName, options).Some?;
      } else if !options.required && s == "" {
        assert ValidateField(value, fieldName, options).None?;
      } else {
        assert ValidateField(value, fieldName, options) == CheckString(s, fieldName, options);
        CheckStringPassesIff(s, fieldName, options);
      }
    }
  }

  /** The text checks report nothing exactly when every switched-on text rule passes. */
  lemma CheckStringPassesIff(s: string, fieldName: string, options: ValidationOptions)
    ensures CheckString(s, fieldName, options) == None <==> StringPasses(s, options)
  {
    EmailShapeIsRegex(s);
    if IsEmailShape(s) {
      assert s[IndexOf(s, '@')] == '@';
    }
  }

  /** A rule of the ordered list: whether it rejects, and what it then reports. */
  datatype Rule = Rule(rejects: bool, message: string)

  /** The message of the first rejecting rule of the list. */
  function FirstRejection(rules: seq<Rule>): (r: Option<string>)
    ensures r.None? <==> forall i | 0 <= i < |rules| :: !rules[i].rejects
    ensures r.Some? ==> exists i | 0 <= i < |rules| :: rules[i].rejects && rules[i].message == r.value
                                                       && forall j | 0 <= j < i :: !rules[j].rejects
  {
    if rules == [] then None
    else if rules[0].rejects then Some(rules[0].message)
    else
      var r := FirstRejection(rules[1..]);
      assert forall i | 1 <= i < |rules| :: rules[i] == rules[1..][i - 1];
      r
  }

  /** The six text rules in the order minLength, maxLength, pattern, email shape, business domain, phone. */
  ghost function StringRules(s: string, fieldName: string, options: ValidationOptions): seq<Rule> {
    [ Rule(IsSet(options.minLength) && Utf16Length(s) < options.minLength.value,
           MinLengthMessage(fieldName, if options.minLength.Some? then options.minLength.value else 0)),
      Rule(IsSet(options.maxLength) && Utf16Length(s) > options.maxLength.value,
           MaxLengthMessage(fieldName, if options.maxLength.Some? then options.maxLength.value else 0)),
      Rule(options.pattern.Some? && !options.pattern.value(s), FormatMessage(fieldName)),
      Rule(options.isEmail && !MatchesEmailRegex(s), EmailMessage),
      Rule(options.isEmail && options.isBusiness && '@' in s && IsFreeEmailDomain(s), BusinessEmailMessage),
      Rule(options.isPhone && !HasPhoneDigits(s), PhoneMessage) ]
  }

  /** The text checks report the first failing rule in source order, and nothing when none fails. */
  lemma CheckStringIsFirstRejection(s: string, fieldName: string, options: ValidationOptions)
    ensures CheckString(s, fieldName, options) == FirstRejection(StringRules(s, fieldName, options))
  {
    EmailShapeIsRegex(s);
    if IsEmailShape(s) {
      assert s[IndexOf(s, '@')] == '@';
    }
    var rules := StringRules(s, fieldName, options);
    FirstRejectionOfSix(rules[0], rules[1], rules[2], rules[3], rules[4], rules[5]);
    assert rules == [rules[0], rules[1], rules[2], rules[3], rules[4], rules[5]];
  }

  /** Six rules are tried one after the other. */
  lemma FirstRejectionOfSix(a: Rule, b: Rule, c: Rule, d: Rule, e: Rule, f: Rule)
    ensures FirstRejection([a, b, c, d, e, f]) ==
      if a.rejects then Some(a.message) else if b.rejects then Some(b.message)
      else if c.rejects then Some(c.message) else if d.rejects then Some(d.message)
      else if e.rejects then Some(e.message) else if f.rejects then Some(f.message) else None
  {
    assert [f][1..] == [];
    assert FirstRejection([f]) == if f.rejects then Some(f.message) else None;
    assert [e, f][1..] == [f];
    assert FirstRejection([e, f]) == if e.rejects then Some(e.message) else FirstRejection([f]);
    assert [d, e, f][1..] == [e, f];
    assert FirstRejection([d, e, f]) == if d.rejects then Some(d.message) else FirstRejection([e, f]);
    assert [c, d, e, f][1..] == [d, e, f];
    assert FirstRejection([c, d, e, f]) == if c.rejects then Some(c.message) else FirstRejection([d, e, f]);
    assert [b, c, d, e, f][1..] == [c, d, e, f];
    assert FirstRejection([b, c, d, e, f]) == if b.rejects then Some(b.message) else FirstRejection([c, d, e, f]);
    assert [a, b, c, d, e, f][1..] == [b, c, d, e, f];
  }

  // ------------------------------------------------------- boundary lemmas

  /** A required field holding an empty value gets exactly "<name> is required", whatever the other rules say. */
  lemma RequiredEmptyShortCircuits(value: Value, fieldName: string, options: ValidationOptions, others: ValidationOptions)
    requires options.required && others.required && IsEmptyValue(value)
    ensures ValidateField(value, fieldName, options) == Some(fieldName + " is required")
    ensures ValidateField(value, fieldName, options) == ValidateField(value, fieldName, others)
  {
  }

  /** Blank text, an empty list, `null` and `undefined` are the empty values of a required field. */
  lemma EmptyValues(value: Value)
    ensures IsEmptyValue(value) <==>
      (value.Str? && IsBlank(value.s)) || value == Arr([]) || value == Null || value == Undefined
  {
    if value.Str? { TrimEmptyIffBlank(value.s); }
  }

  /** An optional field holding `''`, `null` or `undefined` passes, whatever rules it carries. */
  lemma OptionalAbsentPasses(value: Value, fieldName: string, options: ValidationOptions)
    requires !options.required && IsAbsentValue(value)
    ensures ValidateField(value, fieldName, options) == None
  {
  }

  /** Optional non-empty text, even all whitespace, still goes through the text rules. */
  lemma OptionalTextIsChecked(s: string, fieldName: string, options: ValidationOptions)
    requires !options.required && s != ""
    ensures ValidateField(Str(s), fieldName, options) == FirstRejection(StringRules(s, fieldName, options))
  {
    CheckStringIsFirstRejection(s, fieldName, options);
  }

  /** Required text that is not blank gets the message of its first failing text rule. */
  lemma RequiredTextIsChecked(s: string, fieldName: string, options: ValidationOptions)
    requires options.required && !IsBlank(s)
    ensures ValidateField(Str(s), fieldName, options) == FirstRejection(StringRules(s, fieldName, options))
  {
    TrimEmptyIffBlank(s);
    CheckStringIsFirstRejection(s, fieldName, options);
  }

  /** A length bound of 0 is falsy and behaves exactly like an absent one. */
  lemma ZeroLengthBoundIgnored(value: Value, fieldName: string, options: ValidationOptions)
    ensures ValidateField(value, fieldName, options.(minLength := Some(0)))
         == ValidateField(value, fieldName, options.(minLength := None))
    ensures ValidateField(value, fieldName, options.(maxLength := Some(0)))
         == ValidateField(value, fieldName, options.(maxLength := None))
  {
    if value.Str? {
      ZeroLengthBoundIgnoredByText(value.s, fieldName, options);
    }
  }

  /** The text rules read a length bound of 0 as no bound. */
  lemma ZeroLengthBoundIgnoredByText(s: string, fieldName: string, options: ValidationOptions)
    ensures CheckString(s, fieldName, options.(minLength := Some(0)))
         == CheckString(s, fieldName, options.(minLength := None))
    ensures CheckString(s, fieldName, options.(maxLength := Some(0)))
         == CheckString(s, fieldName, options.(maxLength := None))
  {
    assert !IsSet(Some(0));
  }

  /** On a well-formed address `split('@')[1]` is everything after its one `@`. */
  lemma DomainOfWellFormed(s: string)
    requires IsEmailShape(s)
    ensures '@' in s && DomainOf(s) == s[IndexOf(s, '@') + 1..]
  {
    var at := IndexOf(s, '@');
    assert s[at] == '@';
    var rest := s[at + 1..];
    assert IndexOf(rest, '@') == |rest|;
    assert rest[..|rest|] == rest;
  }

  /**
   * Once the earlier rules have passed on a well-formed address, the business
   * rule rejects it exactly when its lower-cased domain equals a listed provider.
   */
  lemma BusinessRuleIsExactDomainMatch(s: string, fieldName: string, options: ValidationOptions)
    requires options.isEmail && options.isBusiness && IsEmailShape(s)
    requires IsSet(options.minLength) ==> Utf16Length(s) >= options.minLength.value
    requires IsSet(options.maxLength) ==> Utf16Length(s) <= options.maxLength.value
    requires options.pattern.Some? ==> options.pattern.value(s)
    ensures '@' in s
    ensures ValidateField(Str(s), fieldName, options) == Some(BusinessEmailMessage)
        <==> ToLower(s[IndexOf(s, '@') + 1..]) in FreeEmailDomains
  {
    DomainOfWellFormed(s);
    var at := IndexOf(s, '@');
    assert s != "";
    assert !IsBlank(s) by { assert !IsWhitespace(s[at]); }
    TrimEmptyIffBlank(s);
    assert ValidateField(Str(s), fieldName, options) == CheckString(s, fieldName, options);
  }

  /** The options of a required business address field. */
  const BusinessEmailOptions := NoOptions.(required := true, isEmail := true, isBusiness := true)

  /** A listed provider is rejected. */
  lemma FreeProviderRejected()
    ensures ValidateField(Str("user@gmail.com"), "Email", BusinessEmailOptions) == Some(BusinessEmailMessage)
  {
    FreeProviderExample();
    BusinessExample("user@gmail.com", 4, 10, "gmail.com");
  }

  /** The domain is lower-cased before the comparison. */
  lemma UpperCaseFreeProviderRejected()
    ensures ValidateField(Str("USER@Gmail.com"), "Email", BusinessEmailOptions) == Some(BusinessEmailMessage)
  {
    UpperCaseFreeProviderExample();
    BusinessExample("USER@Gmail.com", 4, 10, "gmail.com");
  }

  /** A subdomain of a listed provider is not matched. */
  lemma ProviderSubdomainAccepted()
    ensures ValidateField(Str("user@mail.gmail.com"), "Email", BusinessEmailOptions) == None
  {
    ProviderSubdomainExample();
    BusinessExample("user@mail.gmail.com", 4, 15, "mail.gmail.com");
  }

  /** A company domain is accepted. */
  lemma CompanyDomainAccepted()
    ensures ValidateField(Str("user@acme.com"), "Email", BusinessEmailOptions) == None
  {
    CompanyDomainExample();
    BusinessExample("user@acme.com", 4, 9, "acme.com");
  }

  /**
   * An example address: its `@` at `at`, a `.` at `dot` inside the domain,
   * letters and dots everywhere else, and `lowered` its lower-cased domain.
   */
  predicate ExampleAddress(s: string, at: nat, dot: nat, lowered: string) {
    && ExampleLayout(s, at, dot)
    && ToLower(s[at + 1..]) == lowered
  }

  /** The positions and characters of an example address. */
  predicate ExampleLayout(s: string, at: nat, dot: nat) {
    && 0 < at && at + 1 < dot && dot + 1 < |s| && s[at] == '@' && s[dot] == '.'
    && (forall k | 0 <= k < |s| && k != at :: 'a' <= s[k] <= 'z' || 'A' <= s[k] <= 'Z' || s[k] == '.')
  }

  lemma FreeProviderExample()
    ensures ExampleAddress("user@gmail.com", 4, 10, "gmail.com") && "gmail.com" in FreeEmailDomains
  {
    var s := "user@gmail.com";
    ToLowerOfLowerCase(s[5..]);
    assert s[5..] == "gmail.com";
  }

  lemma UpperCaseFreeProviderExample()
    ensures ExampleAddress("USER@Gmail.com", 4, 10, "gmail.com") && "gmail.com" in FreeEmailDomains
  {
    var s := "USER@Gmail.com";
    assert ToLower(s[5..]) == "gmail.com";
  }

  lemma ProviderSubdomainExample()
    ensures ExampleAddress("user@mail.gmail.com", 4, 15, "mail.gmail.com") && "mail.gmail.com" !in FreeEmailDomains
  {
    SubdomainLayout();
    SubdomainLowered();
    SubdomainNotListed();
  }

  lemma SubdomainLayout()
    ensures ExampleLayout("user@mail.gmail.com", 4, 15)
  {
  }

  lemma SubdomainLowered()
    ensures ToLower("user@mail.gmail.com"[5..]) == "mail.gmail.com"
  {
    var d := "user@mail.gmail.com"[5..];
    assert d == "mail.gmail.com";
    ToLowerOfLowerCase(d);
  }

  lemma SubdomainNotListed()
    ensures "mail.gmail.com" !in FreeEmailDomains
  {
    assert "protonmail.com"[0] != 'm';
  }

  lemma CompanyDomainExample()
    ensures ExampleAddress("user@acme.com", 4, 9, "acme.com") && "acme.com" !in FreeEmailDomains
  {
    var s := "user@acme.com";
    ToLowerOfLowerCase(s[5..]);
    assert s[5..] == "acme.com";
    assert "mail.com"[0] != 'a' && "zoho.com"[0] != 'a';
  }

  /** The business verdict on an example address follows from its domain alone. */
  lemma BusinessExample(s: string, at: nat, dot: nat, lowered: string)
    requires ExampleAddress(s, at, dot, lowered)
    ensures ValidateField(Str(s), "Email", BusinessEmailOptions) ==
      if lowered in FreeEmailDomains then Some(BusinessEmailMessage) else None
  {
    ExampleIsEmailShape(s, at, dot, lowered);
    BusinessRuleIsExactDomainMatch(s, "Email", BusinessEmailOptions);
  }

  /** An example address has the checked email shape, with its `@` where the example says. */
  lemma ExampleIsEmailShape(s: string, at: nat, dot: nat, lowered: string)
    requires ExampleAddress(s, at, dot, lowered)
    ensures IsEmailShape(s) && IndexOf(s, '@') == at
  {
    assert forall k | 0 <= k < |s| && k != at :: IsPlain(s[k]);
    assert '@' !in s[..at];
    IndexOfFirst(s, '@', at);
    var domain := s[at + 1..];
    assert domain[1..|domain| - 1][dot - at - 2] == '.';
  }

  /** The phone rule fails exactly when fewer than ten ASCII digits remain once everything else is dropped. */
  lemma PhoneRuleCountsDigits(s: string, fieldName: string)
    requires s != ""
    ensures ValidateField(Str(s), fieldName, NoOptions.(isPhone := true)) == None <==> |DigitsOnly(s)| >= 10
  {
  }

  /** "555-123-4567" has ten digits and passes the phone rule. */
  lemma TenDigitPhoneAccepted()
    ensures ValidateField(Str("555-123-4567"), "Phone", NoOptions.(isPhone := true)) == None
  {
    var s := "555-123-4567";
    assert |DigitsOnly(s)| == 10 by {
      var a, b, c := "555-", "123-", "4567";
      assert DigitsOnly(a) == "555";
      assert DigitsOnly(b) == "123";
      assert DigitsOnly(c) == "4567";
      DigitsOnlyAppend(a, b);
      DigitsOnlyAppend(a + b, c);
      assert s == a + b + c;
    }
    PhoneRuleCountsDigits(s, "Phone");
  }

  /** "555-1234" has only seven digits and is rejected. */
  lemma SevenDigitPhoneRejected()
    ensures ValidateField(Str("555-1234"), "Phone", NoOptions.(isPhone := true)) == Some(PhoneMessage)
  {
    var s := "555-1234";
    assert s == "555-" + "1234";
    DigitsOnlyAppend("555-", "1234");
    assert DigitsOnly("555-") == "555" && DigitsOnly("1234") == "1234";
    PhoneRuleCountsDigits(s, "Phone");
  }

  /** Checkboxes and lists: a required `false` is "not provided"; `true`, an optional `false` and any non-empty list pass. */
  lemma NonTextValues(b: bool, items: seq<string>, fieldName: string, options: ValidationOptions)
    ensures ValidateField(Bool(b), fieldName, options) ==
      if options.required && !b then Some(fieldName + " is required") else None
    ensures items != [] ==> ValidateField(Arr(items), fieldName, options) == None
  {
  }

  // ---------------------------------------------------------- the step check

  /** The failing fields of a rule table and their messages. */
  function StepErrors(stepFields: map<string, ValidationOptions>, formData: Record): map<string, string> {
    map fieldName | fieldName in stepFields && ValidateField(Get(formData, fieldName), fieldName, stepFields[fieldName]).Some?
      :: ValidateField(Get(formData, fieldName), fieldName, stepFields[fieldName]).value
  }

  /**
   * `validateStep`: one pass over the rule table, recording each field whose
   * check reports a message. The table is visited in an arbitrary order.
   */
  method ValidateStep(stepFields: map<string, ValidationOptions>, formData: Record) returns (errors: map<string, string>)
    ensures forall fieldName :: fieldName in errors <==>
      fieldName in stepFields && ValidateField(Get(formData, fieldName), fieldName, stepFields[fieldName]).Some?
    ensures forall fieldName | fieldName in errors ::
      ValidateField(Get(formData, fieldName), fieldName, stepFields[fieldName]) == Some(errors[fieldName])
    ensures errors == StepErrors(stepFields, formData)
  {
    errors := map[];
    var pending := stepFields.Keys;
    while pending != {}
      invariant pending <= stepFields.Keys
      invariant forall fieldName :: fieldName in errors <==>
        fieldName in stepFields && fieldName !in pending
        && ValidateField(Get(formData, fieldName), fieldName, stepFields[fieldName]).Some?
      invariant forall fieldName | fieldName in errors ::
        ValidateField(Get(formData, fieldName), fieldName, stepFields[fieldName]) == Some(errors[fieldName])
      decreases pending
    {
      var fieldName :| fieldName in pending;
      var error := ValidateField(Get(formData, fieldName), fieldName, stepFields[fieldName]);
      if error.Some? && error.value != "" {
        errors := errors[fieldName := error.value];
      }
      pending := pending - {fieldName};
    }
  }

  /** A step passes exactly when every field of its table passes on its own. */
  lemma StepErrorsEmptyIffAllPass(stepFields: map<string, ValidationOptions>, formData: Record)
    ensures StepErrors(stepFields, formData) == map[] <==>
      forall fieldName | fieldName in stepFields :: ValidateField(Get(formData, fieldName), fieldName, stepFields[fieldName]) == None
  {
    if StepErrors(stepFields, formData) == map[] {
      forall fieldName | fieldName in stepFields
        ensures ValidateField(Get(formData, fieldName), fieldName, stepFields[fieldName]) == None
      {
        assert fieldName !in StepErrors(stepFields, formData);
      }
    }
  }

  /** A step's verdict reads only the fields of its own table. */
  lemma StepErrorsReadOnlyTheirFields(stepFields: map<string, ValidationOptions>, formData: Record, other: Record)
    requires forall fieldName | fieldName in stepFields :: Get(formData, fieldName) == Get(other, fieldName)
    ensures StepErrors(stepFields, formData) == StepErrors(stepFields, other)
  {
  }

  /** `generateStepValidator`: a step without a rule table has no errors; any other step is checked against its table. */
  function GenerateStepValidator(stepValidationRules: map<int, map<string, ValidationOptions>>): (validator: StepValidator)
    ensures forall step, formData | step !in stepValidationRules :: validator(step, formData) == map[]
    ensures forall step, formData | step in stepValidationRules ::
      validator(step, formData) == StepErrors(stepValidationRules[step], formData)
  {
    (step: int, formData: Record) =>
      if step in stepValidationRules then StepErrors(stepValidationRules[step], formData) else map[]
  }

  /** The validator's body run as `validateStep` runs it. */
  method RunStepValidator(stepValidationRules: map<int, map<string, ValidationOptions>>, step: int, formData: Record)
    returns (errors: map<string, string>)
    ensures step !in stepValidationRules ==> errors == map[]
    ensures step in stepValidationRules ==>
      forall fieldName :: fieldName in errors <==>
        fieldName in stepValidationRules[step]
        && ValidateField(Get(formData, fieldName), fieldName, stepValidationRules[step][fieldName]).Some?
    ensures errors == GenerateStepValidator(stepValidationRules)(step, formData)
  {
    if step !in stepValidationRules {
      return map[];
    }
    errors := ValidateStep(stepValidationRules[step], formData);
  }
}
