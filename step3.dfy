/**
 * The last wizard screen, src/components/Step3Form.tsx: application and
 * contact details, the honeypot and the consent box. "Back" returns to
 * step 2; "submit" first drops suspected bots, then validates step 3, then
 * runs the submission lifecycle around one awaited call.
 *
 * `handleSubmit` is asynchronous. `HandleSubmit` is its run up to the
 * awaited call, `ResumeSubmit` the rest once that call has settled, and
 * `Submit` the two run back to back with nothing in between.
 */
module Step3 {
  import opened Wrappers
  import opened JsValue
  import opened CreateFormContext
  import opened FormValidation

  /** The message stored when the awaited call throws. */
  const SubmissionErrorMessage := "There was an error submitting your form. Please try again."

  /** The hidden `website` field holds a truthy value: a bot filled it in. */
  predicate HoneypotFilled(formData: Record) {
    Truthy(Get(formData, "website"))
  }

  class Step3Form {
    /** The shared form state the screen reads and writes. */
    const context: FormProvider
    /** The field errors the screen shows. */
    var errors: map<string, string>

    /** The screen mounts showing no errors. */
    constructor (context: FormProvider)
      ensures this.context == context && errors == map[]
    {
      this.context := context;
      errors := map[];
    }

    /** `handleBack`: back to step 2, with no validation and nothing else changed. */
    method HandleBack()
      modifies context
      ensures context.currentStep == 2
      ensures context.formData == old(context.formData)
      ensures context.isSubmitting == old(context.isSubmitting)
      ensures context.submissionSuccess == old(context.submissionSuccess)
      ensures context.submissionError == old(context.submissionError)
    {
      context.SetCurrentStep(2);
    }

    /**
     * `handleSubmit` up to its `await`. A filled honeypot returns before
     * validation and changes nothing; errors of step 3 are shown and nothing
     * else changes; otherwise `isSubmitting` is raised and the call is made
     * (`awaiting`). The record, the step and the outcome fields are untouched.
     */
    method HandleSubmit(validateStep: StepValidator) returns (awaiting: bool)
      modifies this, context
      ensures var found := validateStep(3, old(context.formData));
        && (awaiting <==> !HoneypotFilled(old(context.formData)) && found == map[])
        && (HoneypotFilled(old(context.formData)) ==> errors == old(errors))
        && (!HoneypotFilled(old(context.formData)) && found != map[] ==> errors == found)
      ensures awaiting ==> context.isSubmitting && errors == old(errors)
      ensures !awaiting ==> context.isSubmitting == old(context.isSubmitting)
      ensures context.formData == old(context.formData) && context.currentStep == old(context.currentStep)
      ensures context.submissionSuccess == old(context.submissionSuccess)
      ensures context.submissionError == old(context.submissionError)
    {
      if HoneypotFilled(context.formData) {
        return false;
      }
      var validationErrors := validateStep(3, context.formData);
      if |validationErrors| > 0 {
        errors := validationErrors;
        return false;
      }
      context.SetIsSubmitting(true);
      awaiting := true;
    }

    /**
     * The rest of `handleSubmit` once the awaited call has settled (`threw`
     * tells whether it threw): success is recorded, or else the retry
     * message; either way `isSubmitting` ends `false`. An earlier error is
     * never cleared and the record and step are untouched.
     */
    method ResumeSubmit(threw: bool)
      modifies context
      ensures !context.isSubmitting
      ensures threw ==> context.submissionError == Some(SubmissionErrorMessage)
                        && context.submissionSuccess == old(context.submissionSuccess)
      ensures !threw ==> context.submissionSuccess && context.submissionError == old(context.submissionError)
      ensures context.formData == old(context.formData) && context.currentStep == old(context.currentStep)
    {
      if !threw {
        context.SetSubmissionSuccess(true);
      } else {
        context.SetSubmissionError(Some(SubmissionErrorMessage));
      }
      context.SetIsSubmitting(false);
    }

    /**
     * `handleSubmit` from start to finish with nothing interleaved. A bot or
     * an invalid step leaves every submission field as it was; an attempt
     * ends with `isSubmitting` false and, unless the call threw, with
     * `submissionSuccess` set.
     */
    method Submit(validateStep: StepValidator, threw: bool) returns (attempted: bool)
      modifies this, context
      ensures var found := validateStep(3, old(context.formData));
        && (attempted <==> !HoneypotFilled(old(context.formData)) && found == map[])
        && (HoneypotFilled(old(context.formData)) ==> errors == old(errors))
        && (!HoneypotFilled(old(context.formData)) && found != map[] ==> errors == found)
      ensures !attempted ==>
        && context.isSubmitting == old(context.isSubmitting)
        && context.submissionSuccess == old(context.submissionSuccess)
        && context.submissionError == old(context.submissionError)
      ensures attempted ==>
        && !context.isSubmitting && errors == old(errors)
        && (threw ==> context.submissionError == Some(SubmissionErrorMessage)
                      && context.submissionSuccess == old(context.submissionSuccess))
        && (!threw ==> context.submissionSuccess && context.submissionError == old(context.submissionError))
      ensures context.formData == old(context.formData) && context.currentStep == old(context.currentStep)
    {
      attempted := HandleSubmit(validateStep);
      if attempted {
        ResumeSubmit(threw);
      }
    }
  }
}
