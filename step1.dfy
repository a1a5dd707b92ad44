/**
 * The first wizard screen, src/components/Step1Form.tsx: quantity and size
 * are picked on it, and "continue" moves to step 2 only when step 1 validates.
 */
module Step1 {
  import opened JsValue
  import opened CreateFormContext
  import opened FormValidation

  class Step1Form {
    /** The shared form state the screen reads and writes. */
    const context: FormProvider
    /** The field errors the screen shows. */
    var errors: map<string, string>

    /** The screen mounts showing no errors. */
    constructor (context: FormProvider)
      ensures this.context == context && errors == map[]
    {
      this.context := context;
      errors := map[];
    }

    /**
     * `handleContinue`: step 1 is validated against the current record; any
     * error is shown and the step stays, otherwise the wizard moves to step 2
     * and the errors are cleared. The record and the submission fields are
     * never touched.
     */
    method HandleContinue(validateStep: StepValidator)
      modifies this, context
      ensures var found := validateStep(1, old(context.formData));
        && (found != map[] ==> errors == found && context.currentStep == old(context.currentStep))
        && (found == map[] ==> errors == map[] && context.currentStep == 2)
      ensures context.formData == old(context.formData)
      ensures context.isSubmitting == old(context.isSubmitting)
      ensures context.submissionSuccess == old(context.submissionSuccess)
      ensures context.submissionError == old(context.submissionError)
    {
      var validationErrors := validateStep(1, context.formData);
      if |validationErrors| > 0 {
        errors := validationErrors;
        return;
      }
      context.SetCurrentStep(2);
      errors := map[];
    }
  }
}
