# Cleanroom quote wizard: a verified model of its form engine

This project models the core of a three-step lead-capture wizard, a request for a quote on fan filter units (FFUs). It has three parts:

- **The validation engine** (`form_validation.dfy`). `ValidateField` evaluates one dynamically typed field value against a set of rules. The first rule that fails decides the message. `ValidateStep` collects the failing fields of a step's rule table into an error map. `GenerateStepValidator` picks a step's table.
- **The form state container** (`create_form_context.dfy`, `form_context.dfy`). The class `FormProvider` holds the current step, the flat form record and three submission fields: `isSubmitting`, `submissionSuccess` and `submissionError`. Its setters are unconditional. `updateFormData` is a shallow merge in which the last write wins. The concrete quote form adds its record type, its default record and a provider built from them.
- **The wizard transitions** (`step1.dfy`, `step2.dfy`, `step3.dfy`). Each screen is a class with its own displayed `errors` and a reference to the shared provider.
  - "Continue" moves on only when the step validator reports no error.
  - "Back" moves back unconditionally.
  - A feature checkbox toggles that feature's membership in `specificFeatures`.
  - "Submit" runs a honeypot gate, then validation, then the `isSubmitting` → success/error lifecycle.

Helper modules hold the rest:

- `js_value.dfy`: the dynamic value, which is text, a list of texts, a boolean, `null` or `undefined`, plus JavaScript truthiness and record lookup.
- `js_string.dfy`: the JavaScript string built-ins the rules use, namely `trim`, the `\s` and `\D` classes, `toLowerCase`, UTF-16 `length` and number rendering.
- `wrappers.dfy`: `Option`.

Modelling choices:

- **The step validator used by the screens is a parameter.** The screens import it from a module that is not part of this model. Its signature is `(step, formData) -> errors`. `GenerateStepValidator` over any rule table is one such validator, and `FormContext.RequiredFieldBlocksFreshForm` uses it that way.
- **The submission is an outcome parameter.** The awaited call's result is the input `threw`. In the code as written, the awaited promise is a timer that always resolves, so only `threw == false` occurs today.
  - `handleSubmit` is asynchronous. It is modelled as `HandleSubmit`, which runs up to the `await`, and `ResumeSubmit`, which runs after it. Other handlers may run between the two calls.
  - `Submit` runs the two halves back to back.
- **Whitespace is the real ECMAScript set.** `trim` and `\s` use the same WhiteSpace and LineTerminator code points, so one predicate serves both.
- **`value.length` counts UTF-16 code units**, so a character outside the Basic Multilingual Plane counts twice.
- **The model's `ToLower` maps only the characters whose lower case is ASCII.** Those are `A`–`Z` and the Kelvin sign, which lowers to `k`, as in `outlook.com`. JavaScript's `toLowerCase` also lowers other letters (`É` to `é`, `İ` to two code units), but none of them becomes ASCII, so membership in the all-ASCII list of free email domains is unchanged.
- **The email regular expression is modelled twice.** `MatchesEmailRegex` gives its language: three runs of characters that are neither whitespace nor `@`, joined by `@` and `.`. `IsEmailShape` is a direct check, and `EmailShapeIsRegex` proves the two agree.
- **Whitespace-only optional text is still checked.** An optional field holding `''`, `null` or `undefined` skips every rule. An optional field holding only whitespace does not skip them, so an `isEmail` rule rejects it. The model follows the code and its comment at src/utils/formValidation.ts:26, which skips only an empty optional field.
- **Nothing orders the submission fields.** After a failed attempt and a successful retry, `submissionSuccess` is true and the old `submissionError` is still set, because no handler clears it. `Step3Form.Submit` states this.
- **The base-record invariant depends on well-typed partials.** `Partial<T>` under TypeScript's default settings also admits an explicit `undefined` for `consentGiven`. Such a partial would leave the merged record without a boolean consent flag. `MergeKeepsBaseFormData` therefore assumes a well-typed partial (`IsBasePartial`).

## Model

| member | source | states |
|---|---|---|
| `JsString.TrimEmptyIffBlank` | src/utils/formValidation.ts:19 | `value.trim() === ''` holds exactly when every character is ECMAScript whitespace |
| `JsString.TrimStart` | src/utils/formValidation.ts:19 | the leading part `trim` drops is all whitespace, and what remains starts with a non-blank character |
| `JsString.TrimEnd` | src/utils/formValidation.ts:19 | the trailing part `trim` drops is all whitespace, and what remains ends with a non-blank character |
| `JsString.Utf16Length` | src/utils/formValidation.ts:33-37 | `value.length` is between the number of characters and twice that number, equals the number of characters when all lie in the Basic Multilingual Plane, and twice it when none does |
| `JsString.Utf16LengthAppend` | src/utils/formValidation.ts:33-37 | the code units of a text are the sum of those of its pieces |
| `JsString.Utf16LengthOfChar` | src/utils/formValidation.ts:33-37 | one character takes two code units outside the Basic Multilingual Plane and one inside it |
| `JsString.NatToDecimal` | src/utils/formValidation.ts:34 | the bound rendered into a length message is a non-empty run of decimal digits with no leading zero; zero renders as `0` |
| `JsString.NatToDecimalDenotes` | src/utils/formValidation.ts:34 | the rendered digits read back as the bound itself |
| `JsString.IntToDecimal` | src/utils/formValidation.ts:34-38 | `${options.minLength}` and `${options.maxLength}` render a bound as its decimal digits with no leading zero (`0` for zero), after a `-` when negative, and the digits denote its magnitude |
| `JsString.ToLower` | src/utils/formValidation.ts:60 | the model's lower-casing keeps the length, turns each capital `A`–`Z` into its lower-case letter and the Kelvin sign into `k`, and leaves every other character alone |
| `JsString.DigitsOnly` | src/utils/formValidation.ts:69 | `replace(/\D/g, '')` leaves only ASCII digits |
| `JsString.DigitsOnlyKeepsEveryDigit` | src/utils/formValidation.ts:69 | every ASCII digit of the input survives as often as it occurs |
| `JsString.DigitsOnlyAppend` | src/utils/formValidation.ts:69 | digits are extracted piece by piece, in order |
| `JsValue.Get` | src/utils/formValidation.ts:91 | `formData[fieldName]` is the stored value, or `undefined` for a missing key |
| `FormValidation.ValidateField` | src/utils/formValidation.ts:12-82 | a reported error is never the empty string, so `if (error)` in `validateStep` sees every failure |
| `FormValidation.ValidateFieldPassesIffAccepts` | src/utils/formValidation.ts:17-81 | no error is reported iff the value meets every active rule in an order-free reading: required non-empty, the text rules, a required checkbox ticked |
| `FormValidation.RequiredEmptyShortCircuits` | src/utils/formValidation.ts:18-24 | a required field with an empty value gets exactly "<name> is required", whatever its other rules |
| `FormValidation.EmptyValues` | src/utils/formValidation.ts:18-22 | the empty values of a required field are whitespace-only text, `[]`, `null` and `undefined` |
| `FormValidation.OptionalAbsentPasses` | src/utils/formValidation.ts:27-29 | an optional field holding `''`, `null` or `undefined` passes whatever rules it carries |
| `FormValidation.OptionalTextIsChecked` | src/utils/formValidation.ts:27-43 | optional non-empty text, whitespace-only included, still goes through the text rules |
| `FormValidation.CheckStringPassesIff` | src/utils/formValidation.ts:32-74 | the text rules of `CheckString` report nothing iff each active rule (length bounds, pattern, email shape, business domain, phone digits) passes |
| `FormValidation.CheckStringIsFirstRejection` | src/utils/formValidation.ts:32-73 | the reported message is that of the first failing rule in the order minLength, maxLength, pattern, email shape, business domain, phone |
| `FormValidation.RequiredTextIsChecked` | src/utils/formValidation.ts:18-43 | required text that is not blank gets the message of its first failing text rule, as the ordered list gives it |
| `FormValidation.ZeroLengthBoundIgnored` | src/utils/formValidation.ts:33-39 | a minLength or maxLength of 0 is falsy and behaves exactly as if absent |
| `FormValidation.IndexOfFirst` | src/utils/formValidation.ts:60 | a character with no earlier occurrence is the one the first-occurrence search finds |
| `FormValidation.EmailShapeIsRegex` | src/utils/formValidation.ts:47-48 | the shape check `IsEmailShape` holds iff the text is in the language of `/^[^\s@]+@[^\s@]+\.[^\s@]+$/`: no whitespace, exactly one `@`, a non-empty local part, a `.` inside the domain |
| `FormValidation.DomainOfWellFormed` | src/utils/formValidation.ts:60 | on a well-formed address `split('@')[1]` is everything after its single `@` |
| `FormValidation.BusinessRuleIsExactDomainMatch` | src/utils/formValidation.ts:53-63 | for an address whose length and pattern rules pass, `CheckString`'s business rule rejects iff the lower-cased domain equals a listed provider exactly |
| `FormValidation.FreeProviderRejected` | src/utils/formValidation.ts:54-62 | `user@gmail.com` is rejected as not a business address |
| `FormValidation.UpperCaseFreeProviderRejected` | src/utils/formValidation.ts:60-62 | `USER@Gmail.com` is rejected: the domain is lower-cased first |
| `FormValidation.ProviderSubdomainAccepted` | src/utils/formValidation.ts:60-61 | `user@mail.gmail.com` is accepted: subdomains are not matched |
| `FormValidation.CompanyDomainAccepted` | src/utils/formValidation.ts:53-63 | `user@acme.com` is accepted |
| `FormValidation.PhoneRuleCountsDigits` | src/utils/formValidation.ts:68-73 | the phone rule passes iff at least 10 ASCII digits remain once everything else is dropped |
| `FormValidation.TenDigitPhoneAccepted` | src/utils/formValidation.ts:68-73 | `555-123-4567` passes the phone rule |
| `FormValidation.SevenDigitPhoneRejected` | src/utils/formValidation.ts:68-73 | `555-1234` fails the phone rule |
| `FormValidation.NonTextValues` | src/utils/formValidation.ts:76-81 | a required `false` is "<name> is required"; `true`, an optional `false` and any non-empty list pass |
| `FormValidation.ValidateStep` | src/utils/formValidation.ts:84-98 | a field is in the result iff its table has it and its check fails, and it maps to that check's message, whatever order the table is visited in |
| `FormValidation.StepErrorsEmptyIffAllPass` | src/utils/formValidation.ts:84-98 | the error map is empty iff every field of the table passes on its own |
| `FormValidation.StepErrorsReadOnlyTheirFields` | src/utils/formValidation.ts:90-91 | a step's verdict depends only on the record's values at the table's own fields |
| `FormValidation.GenerateStepValidator` | src/utils/formValidation.ts:100-111 | a step without a rule table yields `{}`; any other step yields its table's errors |
| `FormValidation.RunStepValidator` | src/utils/formValidation.ts:103-110 | running the validator through `validateStep` gives the same map: `{}` for a step without a table, otherwise the failing fields |
| `CreateFormContext.MergeWritesPartial` | src/utils/createFormContext.ts:32-34 | after a merge (`Merge`, the spread `{ ...prevData, ...data }`) every key of the partial holds the partial's value, lists replaced wholesale |
| `CreateFormContext.MergeKeepsOtherKeys` | src/utils/createFormContext.ts:32-34 | every key absent from the partial keeps its previous value, or stays absent |
| `CreateFormContext.MergeKeys` | src/utils/createFormContext.ts:33 | the merged record has exactly the keys of both records |
| `CreateFormContext.MergeEmptyIsIdentity` | src/utils/createFormContext.ts:33 | merging `{}` changes nothing |
| `CreateFormContext.MergeIdempotent` | src/utils/createFormContext.ts:33 | merging the same partial twice equals merging it once |
| `CreateFormContext.MergeLastWriteWins` | src/utils/createFormContext.ts:32-34 | updates `a` then `b` equal one update with `a` overridden by `b` |
| `CreateFormContext.MergeKeepsBaseFormData` | src/utils/createFormContext.ts:4-7 | a well-typed partial keeps a boolean `consentGiven` and a text-or-absent `website` |
| `CreateFormContext.FormProvider.constructor` | src/utils/createFormContext.ts:26-30 | the provider starts at step 1 with the default record, `isSubmitting` and `submissionSuccess` false, no error |
| `CreateFormContext.FormProvider.SetCurrentStep` | src/utils/createFormContext.ts:26 | any step number is stored, with no bounds check, and nothing else changes |
| `CreateFormContext.FormProvider.UpdateFormData` | src/utils/createFormContext.ts:32-34 | the record becomes the merge of the old record and the partial; the step and submission fields stay |
| `CreateFormContext.FormProvider.SetIsSubmitting` | src/utils/createFormContext.ts:28 | unconditional store of `isSubmitting`; nothing else changes |
| `CreateFormContext.FormProvider.SetSubmissionSuccess` | src/utils/createFormContext.ts:29 | unconditional store of `submissionSuccess`; nothing else changes |
| `CreateFormContext.FormProvider.SetSubmissionError` | src/utils/createFormContext.ts:30 | unconditional store of `submissionError`; nothing else changes |
| `CreateFormContext.SubmissionFieldsAreIndependent` | src/utils/createFormContext.ts:9-20 | nothing excludes `isSubmitting`, `submissionSuccess` and a non-null `submissionError` holding at once |
| `FormContext.DefaultFormData` | src/contexts/FormContext.tsx:42-55 | the default record is a well-typed `FormData` with exactly the declared fields, no `website`, every text field `''`, `specificFeatures` `[]`, `consentGiven` `false`, and every field unanswered |
| `FormContext.DefaultFailsEveryRequiredRule` | src/contexts/FormContext.tsx:42-55 | any field of a fresh record that a rule makes required fails with "<name> is required" |
| `FormContext.RequiredFieldBlocksFreshForm` | src/contexts/FormContext.tsx:42-55 | a step whose rule table requires a record field reports that field on a fresh form |
| `FormContext.UpdateKeepsFormData` | src/contexts/FormContext.tsx:66-68 | `updateFormData` with a partial whose fields hold their declared types keeps the record a `FormData` with no undeclared field |
| `FormContext.NewFormProvider` | src/contexts/FormContext.tsx:59-64 | the provider starts at step 1 with `defaultFormData`, not submitting, not succeeded, no error |
| `Step1.Step1Form.constructor` | src/components/Step1Form.tsx:12 | the screen's displayed errors start empty |
| `Step1.Step1Form.HandleContinue` | src/components/Step1Form.tsx:31-41 | errors from validating step 1 are shown and the step stays; with none the step becomes 2 and errors clear; the record and submission fields never change |
| `Step2.RemoveAll` | src/components/Step2Form.tsx:54 | the filtered list lacks the feature and keeps exactly the other features |
| `Step2.RemoveAllKeepsOrder` | src/components/Step2Form.tsx:54 | filtering distributes over concatenation, so the remaining features keep their relative order |
| `Step2.RemoveAbsentIsIdentity` | src/components/Step2Form.tsx:54 | filtering out an absent feature changes nothing |
| `Step2.RemoveAllKeepsNoDuplicates` | src/components/Step2Form.tsx:54 | filtering keeps a duplicate-free list duplicate-free |
| `Step2.ToggleFeature` | src/components/Step2Form.tsx:52-59 | a present feature is filtered out with the others kept in order, an absent one is appended at the end; so its membership flips and no other string's does |
| `Step2.ToggleKeepsNoDuplicates` | src/components/Step2Form.tsx:52-59 | toggling keeps `specificFeatures` duplicate-free |
| `Step2.ToggleTwiceRestoresAbsent` | src/components/Step2Form.tsx:52-59 | appending an absent feature and toggling it again gives back the original list |
| `Step2.FeatureList` | src/components/Step2Form.tsx:50 | a list is copied as is, and a missing or falsy value reads as `[]` |
| `Step2.Step2Form.constructor` | src/components/Step2Form.tsx:14 | the screen's displayed errors start empty |
| `Step2.Step2Form.HandleBack` | src/components/Step2Form.tsx:33-35 | the step becomes 1 without validation; the record and submission fields stay |
| `Step2.Step2Form.HandleContinue` | src/components/Step2Form.tsx:37-47 | errors from validating step 2 are shown and the step stays; with none the step becomes 3 and errors clear |
| `Step2.Step2Form.HandleFeatureToggle` | src/components/Step2Form.tsx:49-61 | only `specificFeatures` is rewritten, to the toggled list; a well-typed record stays well typed |
| `Step3.Step3Form.constructor` | src/components/Step3Form.tsx:23 | the screen's displayed errors start empty |
| `Step3.Step3Form.HandleBack` | src/components/Step3Form.tsx:33-35 | the step becomes 2 without validation; nothing else changes |
| `Step3.Step3Form.HandleSubmit` | src/components/Step3Form.tsx:37-59 | a filled honeypot changes nothing; errors of step 3 are shown with no submission change; otherwise `isSubmitting` is raised before the awaited call |
| `Step3.Step3Form.ResumeSubmit` | src/components/Step3Form.tsx:59-73 | success is recorded, or the fixed retry message if the call threw; `isSubmitting` always ends false; an earlier error is never cleared |
| `Step3.Step3Form.Submit` | src/components/Step3Form.tsx:37-74 | a bot (`HoneypotFilled`: a truthy `website`) or an invalid step never touches the submission fields or reaches success; an attempt ends not submitting, with success or the retry message; record and step never change |

## Left out

- Rendering: the JSX, styling, UI primitives, icons and the layout components (`StepContainer`, `FormControls`, `QuizFormLayout` with its email-verification gate, `CleanroomQuizForm`, `ContactFormFields`) are presentation only.
- The static configuration in `src/config/formConfig.ts`: copy, theme colours, URLs and per-step field lists, with no behaviour.
- React plumbing: `createContext`/`useContext`, and the error `useFormContext` throws outside a provider, are framework wiring.
- The updater-function form of the React setters (`setCurrentStep(prev => …)`): the screens only ever pass values.
- Toasts, `console` logging, `preventDefault` and the 1.5 s timer: they are side effects with no state. The awaited call is reduced to its outcome, `threw`, and only a throw from that call is modelled: a throw from `toast.success` after `setSubmissionSuccess(true)` (src/components/Step3Form.tsx:64-65) would also reach the `catch` and leave both success and the retry message set, which `ResumeSubmit` does not represent.
- React render staleness: each handler reads the provider's current state, not a value captured at an earlier render.
- The step validator the screens import is not part of this model. It is a parameter of type `(int, Record) -> map<string, string>`.
- Numbers and objects as field values: no field of the record holds one. Length bounds are integers, so fractional and `NaN` bounds are not modelled.
- `pattern` is an opaque predicate on the text. A regular-expression engine, and the `lastIndex` state of a global (`g`) regular expression's `test`, are not modelled.
- Keys inherited from `Object.prototype` (such as `formData["toString"]`): a missing key reads as `undefined` here.
- `JsString.ToLower`: lowers only the characters whose lower case is ASCII; other letters that `toLowerCase` changes stay as they are, which leaves every comparison with the all-ASCII provider list unchanged.
- `JsString.IntToDecimal`: a bound of 10^21 or more is rendered by JavaScript in exponent form (`1e+21`); the model always writes plain digits.
- `FormValidation.ValidateField`: its contract only promises a non-empty message. The full behaviour is stated by `ValidateFieldPassesIffAccepts`, `RequiredEmptyShortCircuits`, `RequiredTextIsChecked`, `OptionalAbsentPasses`, `OptionalTextIsChecked` and `NonTextValues`.
- `CreateFormContext.MergeKeepsBaseFormData`: it assumes a well-typed partial. TypeScript's `Partial<T>` also admits `consentGiven: undefined`.
- `FormContext.UpdateKeepsFormData`: it assumes a partial with no explicit `undefined` value. `Partial<FormData>` admits one for every declared field (`{ fullName: undefined }`), and such an update leaves the record not a `FormData`; no `updateFormData` call in the three step screens or the contact fields passes one, since each passes a selected or typed text or the toggled list.
- The generic type parameter `T` of `createFormContext`: every record is a `map<string, Value>`, and the shape a form declares is a predicate (`IsBaseFormData`, `FormContext.IsFormData`).
- `Step2.FeatureList`: its contract does not state what spreading a truthy non-list gives. The body models it: spreading `true` throws, so nothing is written (`None`), and non-empty text spreads into its one-character strings.
- No record-store insert is performed in the code, so none is modelled.
