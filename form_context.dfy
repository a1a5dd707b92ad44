/**
 * The quote form's own context, src/contexts/FormContext.tsx: the `FormData`
 * record of the three steps, its defaults, and a provider holding them. The
 * provider's state and setters are those of `CreateFormContext.FormProvider`,
 * which the source file repeats for the concrete record and this model reuses.
 */
module FormContext {
  import opened Wrappers
  import opened JsValue
  import opened CreateFormContext
  import FormValidation
  import JsString

  /** The free-text and single-choice fields of the three steps. */
  const TextFields: set<string> := {
    "ffuQuantity", "ffuSize",
    "filtrationLevel", "airflowRequirements",
    "application", "fullName", "businessEmail", "phoneNumber", "companyName", "projectLocation"
  }

  /** Every field the default record holds; the honeypot `website` is optional and not among them. */
  const FormKeys: set<string> := TextFields + {"specificFeatures", "consentGiven"}

  /** `FormData`: text fields hold text, `specificFeatures` a list, `consentGiven` a checkbox, `website` text if present. */
  predicate IsFormData(formData: Record) {
    && (forall key | key in TextFields :: key in formData && formData[key].Str?)
    && "specificFeatures" in formData && formData["specificFeatures"].Arr?
    && IsBaseFormData(formData)
  }

  /** A partial `FormData` whose fields hold their declared types: only declared fields, and no explicit `undefined` where a field has no such type. */
  predicate IsPartialFormData(data: Record) {
    && (forall key | key in data :: key in FormKeys || key == "website")
    && (forall key | key in data && key in TextFields :: data[key].Str?)
    && ("specificFeatures" in data ==> data["specificFeatures"].Arr?)
    && IsBasePartial(data)
  }

  /** `defaultFormData`: every declared field present and unanswered, and no honeypot value. */
  function DefaultFormData(): (formData: Record)
    ensures IsFormData(formData)
    ensures formData.Keys == FormKeys && "website" !in formData
    ensures forall key | key in TextFields :: formData[key] == Str("")
    ensures formData["specificFeatures"] == Arr([]) && formData["consentGiven"] == Bool(false)
    ensures forall key | key in formData :: !FormValidation.Accepts(formData[key], FormValidation.NoOptions.(required := true))
  {
    map[
      "ffuQuantity" := Str(""), "ffuSize" := Str(""),
      "filtrationLevel" := Str(""), "airflowRequirements" := Str(""), "specificFeatures" := Arr([]),
      "application" := Str(""), "fullName" := Str(""), "businessEmail" := Str(""),
      "phoneNumber" := Str(""), "companyName" := Str(""), "projectLocation" := Str(""),
      "consentGiven" := Bool(false)
    ]
  }

  /** On a fresh form, every field that is required fails with "<name> is required", whatever its other rules. */
  lemma DefaultFailsEveryRequiredRule(key: string, options: FormValidation.ValidationOptions)
    requires key in DefaultFormData() && options.required
    ensures FormValidation.ValidateField(DefaultFormData()[key], key, options) == Some(key + " is required")
  {
    var value := DefaultFormData()[key];
    assert value == Str("") || value == Arr([]) || value == Bool(false);
    if value == Str("") {
      assert JsString.Trim("") == "";
    }
  }

  /** A step whose table makes a field of the record required reports that field on a fresh form, so the wizard cannot leave it. */
  lemma RequiredFieldBlocksFreshForm(
    rules: map<int, map<string, FormValidation.ValidationOptions>>, step: int, key: string)
    requires step in rules && key in rules[step] && rules[step][key].required && key in FormKeys
    ensures FormValidation.GenerateStepValidator(rules)(step, DefaultFormData()) != map[]
    ensures key in FormValidation.GenerateStepValidator(rules)(step, DefaultFormData())
    ensures FormValidation.GenerateStepValidator(rules)(step, DefaultFormData())[key] == key + " is required"
  {
    DefaultFailsEveryRequiredRule(key, rules[step][key]);
    var found := FormValidation.GenerateStepValidator(rules)(step, DefaultFormData());
    assert key in found;
  }

  /** `updateFormData` with a typed partial keeps the record a `FormData` and adds no undeclared field. */
  lemma UpdateKeepsFormData(formData: Record, data: Record)
    requires IsFormData(formData) && formData.Keys <= FormKeys + {"website"}
    requires IsPartialFormData(data)
    ensures IsFormData(Merge(formData, data))
    ensures Merge(formData, data).Keys <= FormKeys + {"website"}
  {
    MergeKeepsBaseFormData(formData, data);
  }

  /** `FormProvider` on its first render: step 1, the default record, nothing submitted. */
  method NewFormProvider() returns (provider: FormProvider)
    ensures provider.currentStep == 1 && provider.formData == DefaultFormData()
    ensures !provider.isSubmitting && !provider.submissionSuccess && provider.submissionError == None
  {
    provider := new FormProvider(DefaultFormData());
  }
}
