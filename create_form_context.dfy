/**
 * The state container of src/utils/createFormContext.ts: the provider a
 * `createFormContext(defaultFormData)` call instantiates holds a step
 * pointer, the form record and three submission fields, with unconditional
 * setters and a shallow merge of partial records.
 */
module CreateFormContext {
  import opened Wrappers
  import opened JsValue

  /** `BaseFormData`: every form record carries a boolean `consentGiven` and may carry a text `website` (the honeypot). */
  predicate IsBaseFormData(formData: Record) {
    && "consentGiven" in formData && formData["consentGiven"].Bool?
    && ("website" in formData ==> formData["website"].Str? || formData["website"].Undefined?)
  }

  /** A `Partial<BaseFormData>` update: whatever base fields it writes, it writes with their declared types. */
  predicate IsBasePartial(data: Record) {
    && ("consentGiven" in data ==> data["consentGiven"].Bool?)
    && ("website" in data ==> data["website"].Str? || data["website"].Undefined?)
  }

  /** `{ ...prevData, ...data }`. */
  function Merge(prevData: Record, data: Record): Record {
    prevData + data
  }

  /** Every key the partial holds takes the partial's value, arrays included: a list is replaced, never merged. */
  lemma MergeWritesPartial(prevData: Record, data: Record, key: string)
    requires key in data
    ensures key in Merge(prevData, data) && Merge(prevData, data)[key] == data[key]
  {
  }

  /** Every key the partial lacks keeps its previous value, or stays absent. */
  lemma MergeKeepsOtherKeys(prevData: Record, data: Record, key: string)
    requires key !in data
    ensures key in Merge(prevData, data) <==> key in prevData
    ensures key in prevData ==> Merge(prevData, data)[key] == prevData[key]
  {
  }

  /** The merged record has exactly the keys of both. */
  lemma MergeKeys(prevData: Record, data: Record)
    ensures Merge(prevData, data).Keys == prevData.Keys + data.Keys
  {
  }

  /** Merging the empty partial changes nothing. */
  lemma MergeEmptyIsIdentity(prevData: Record)
    ensures Merge(prevData, map[]) == prevData
  {
  }

  /** Applying the same partial twice is applying it once. */
  lemma MergeIdempotent(prevData: Record, data: Record)
    ensures Merge(Merge(prevData, data), data) == Merge(prevData, data)
  {
  }

  /** Two updates in a row are one update with the first partial overridden by the second: the last write wins. */
  lemma MergeLastWriteWins(prevData: Record, first: Record, second: Record)
    ensures Merge(Merge(prevData, first), second) == Merge(prevData, Merge(first, second))
  {
  }

  /** A well-typed partial keeps a base record a base record. */
  lemma MergeKeepsBaseFormData(prevData: Record, data: Record)
    requires IsBaseFormData(prevData) && IsBasePartial(data)
    ensures IsBaseFormData(Merge(prevData, data))
  {
  }

  /** The state a `FormProvider` holds. */
  class FormProvider {
    var currentStep: int
    var formData: Record
    var isSubmitting: bool
    var submissionSuccess: bool
    var submissionError: Option<string>

    /** The first render: step 1, the default record, nothing submitted. */
    constructor (defaultFormData: Record)
      requires IsBaseFormData(defaultFormData)
      ensures currentStep == 1 && formData == defaultFormData
      ensures !isSubmitting && !submissionSuccess && submissionError == None
    {
      currentStep := 1;
      formData := defaultFormData;
      isSubmitting := false;
      submissionSuccess := false;
      submissionError := None;
    }

    /** `setCurrentStep`: any number is stored, with no bounds check and no transition rule. */
    method SetCurrentStep(step: int)
      modifies this
      ensures currentStep == step
      ensures formData == old(formData)
      ensures isSubmitting == old(isSubmitting) && submissionSuccess == old(submissionSuccess)
      ensures submissionError == old(submissionError)
    {
      currentStep := step;
    }

    /** `updateFormData`: a shallow, last-write-wins merge that touches nothing but the record. */
    method UpdateFormData(data: Record)
      modifies this
      ensures formData == Merge(old(formData), data)
      ensures currentStep == old(currentStep)
      ensures isSubmitting == old(isSubmitting) && submissionSuccess == old(submissionSuccess)
      ensures submissionError == old(submissionError)
    {
      formData := Merge(formData, data);
    }

    /** `setIsSubmitting`: unconditional. */
    method SetIsSubmitting(value: bool)
      modifies this
      ensures isSubmitting == value
      ensures currentStep == old(currentStep) && formData == old(formData)
      ensures submissionSuccess == old(submissionSuccess) && submissionError == old(submissionError)
    {
      isSubmitting := value;
    }

    /** `setSubmissionSuccess`: unconditional. */
    method SetSubmissionSuccess(value: bool)
      modifies this
      ensures submissionSuccess == value
      ensures currentStep == old(currentStep) && formData == old(formData)
      ensures isSubmitting == old(isSubmitting) && submissionError == old(submissionError)
    {
      submissionSuccess := value;
    }

    /** `setSubmissionError`: unconditional. */
    method SetSubmissionError(value: Option<string>)
      modifies this
      ensures submissionError == value
      ensures currentStep == old(currentStep) && formData == old(formData)
      ensures isSubmitting == old(isSubmitting) && submissionSuccess == old(submissionSuccess)
    {
      submissionError := value;
    }
  }

  /**
   * Nothing keeps the three submission fields apart: three setter calls reach a
   * state that is submitting, succeeded and failed all at once.
   */
  method SubmissionFieldsAreIndependent(defaultFormData: Record) returns (provider: FormProvider)
    requires IsBaseFormData(defaultFormData)
    ensures provider.isSubmitting && provider.submissionSuccess && provider.submissionError.Some?
  {
    provider := new FormProvider(defaultFormData);
    provider.SetIsSubmitting(true);
    provider.SetSubmissionSuccess(true);
    provider.SetSubmissionError(Some("There was an error submitting your form. Please try again."));
  }
}
