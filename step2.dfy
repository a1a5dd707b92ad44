/**
 * The second wizard screen, src/components/Step2Form.tsx: filtration,
 * airflow and the list of wanted features. "Back" returns to step 1,
 * "continue" moves to step 3 only when step 2 validates, and a feature
 * checkbox toggles that feature's membership in `specificFeatures`.
 */
module Step2 {
  import opened Wrappers
  import opened JsValue
  import opened CreateFormContext
  import opened FormValidation
  import FormContext

  /** No feature occurs twice. */
  predicate NoDuplicates(features: seq<string>) {
    forall i, j | 0 <= i < j < |features| :: features[i] != features[j]
  }

  /** `features.filter(f => f !== feature)`. */
  function RemoveAll(features: seq<string>, feature: string): (r: seq<string>)
    ensures |r| <= |features|
    ensures feature !in r
    ensures forall other | other != feature :: other in r <==> other in features
  {
    if features == [] then []
    else (if features[0] == feature then [] else [features[0]]) + RemoveAll(features[1..], feature)
  }

  /** Filtering works piece by piece, so the remaining features keep their relative order. */
  lemma {:induction false} RemoveAllKeepsOrder(front: seq<string>, back: seq<string>, feature: string)
    ensures RemoveAll(front + back, feature) == RemoveAll(front, feature) + RemoveAll(back, feature)
  {
    if front != [] {
      assert (front + back)[1..] == front[1..] + back;
      RemoveAllKeepsOrder(front[1..], back, feature);
    } else {
      assert front + back == back;
    }
  }

  /** Filtering out a feature that is not there changes nothing. */
  lemma {:induction false} RemoveAbsentIsIdentity(features: seq<string>, feature: string)
    requires feature !in features
    ensures RemoveAll(features, feature) == features
  {
    if features != [] {
      assert feature !in features[1..];
      RemoveAbsentIsIdentity(features[1..], feature);
      assert features == [features[0]] + features[1..];
    }
  }

  /** Filtering keeps a duplicate-free list duplicate-free. */
  lemma {:induction false} RemoveAllKeepsNoDuplicates(features: seq<string>, feature: string)
    requires NoDuplicates(features)
    ensures NoDuplicates(RemoveAll(features, feature))
  {
    if features != [] {
      var rest := features[1..];
      assert NoDuplicates(rest) by {
        forall i, j | 0 <= i < j < |rest| ensures rest[i] != rest[j] {
          assert rest[i] == features[i + 1] && rest[j] == features[j + 1];
        }
      }
      RemoveAllKeepsNoDuplicates(rest, feature);
      assert features[0] !in rest by {
        forall k | 0 <= k < |rest| ensures rest[k] != features[0] {
          assert rest[k] == features[k + 1];
        }
      }
      var tail := RemoveAll(rest, feature);
      assert features[0] !in tail;
    }
  }

  /** The toggled list: a present feature is filtered out, an absent one appended at the end. */
  function ToggleFeature(features: seq<string>, feature: string): (r: seq<string>)
    ensures feature in r <==> feature !in features
    ensures forall other | other != feature :: other in r <==> other in features
    ensures feature in features ==> r == RemoveAll(features, feature)
    ensures feature !in features ==> r == features + [feature]
  {
    if feature in features then RemoveAll(features, feature) else features + [feature]
  }

  /** Toggling keeps a duplicate-free list duplicate-free. */
  lemma ToggleKeepsNoDuplicates(features: seq<string>, feature: string)
    requires NoDuplicates(features)
    ensures NoDuplicates(ToggleFeature(features, feature))
  {
    if feature in features {
      RemoveAllKeepsNoDuplicates(features, feature);
    } else {
      var r := features + [feature];
      forall i, j | 0 <= i < j < |r| ensures r[i] != r[j] {
        if j == |features| {
          assert r[i] == features[i];
        } else {
          assert r[i] == features[i] && r[j] == features[j];
        }
      }
    }
  }

  /** Checking an absent feature and unchecking it again gives back the list it started from. */
  lemma ToggleTwiceRestoresAbsent(features: seq<string>, feature: string)
    requires feature !in features
    ensures ToggleFeature(ToggleFeature(features, feature), feature) == features
  {
    RemoveAllKeepsOrder(features, [feature], feature);
    RemoveAbsentIsIdentity(features, feature);
    assert RemoveAll([feature], feature) == [];
  }

  /**
   * `[...(formData.specificFeatures || [])]`: a list is copied, a falsy value
   * reads as `[]`, text spreads into its one-character strings, and spreading
   * `true` throws (`None`).
   */
  function FeatureList(value: Value): (r: Option<seq<string>>)
    ensures value.Arr? ==> r == Some(value.items)
    ensures !Truthy(value) ==> r == Some([])
  {
    match value
    case Arr(items) => Some(items)
    case Str(s) => if s == "" then Some([]) else Some(seq(|s|, i requires 0 <= i < |s| => [s[i]]))
    case Bool(b) => if b then None else Some([])
    case Null => Some([])
    case Undefined => Some([])
  }

  class Step2Form {
    /** The shared form state the screen reads and writes. */
    const context: FormProvider
    /** The field errors the screen shows. */
    var errors: map<string, string>

    /** The screen mounts showing no errors. */
    constructor (context: FormProvider)
      ensures this.context == context && errors == map[]
    {
      this.context := context;
      errors := map[];
    }

    /** `handleBack`: back to step 1, with no validation and nothing else changed. */
    method HandleBack()
      modifies context
      ensures context.currentStep == 1
      ensures context.formData == old(context.formData)
      ensures context.isSubmitting == old(context.isSubmitting)
      ensures context.submissionSuccess == old(context.submissionSuccess)
      ensures context.submissionError == old(context.submissionError)
    {
      context.SetCurrentStep(1);
    }

    /** `handleContinue`: errors of step 2 are shown and the step stays; without errors the wizard moves to step 3. */
    method HandleContinue(validateStep: StepValidator)
      modifies this, context
      ensures var found := validateStep(2, old(context.formData));
        && (found != map[] ==> errors == found && context.currentStep == old(context.currentStep))
        && (found == map[] ==> errors == map[] && context.currentStep == 3)
      ensures context.formData == old(context.formData)
      ensures context.isSubmitting == old(context.isSubmitting)
      ensures context.submissionSuccess == old(context.submissionSuccess)
      ensures context.submissionError == old(context.submissionError)
    {
      var validationErrors := validateStep(2, context.formData);
      if |validationErrors| > 0 {
        errors := validationErrors;
        return;
      }
      context.SetCurrentStep(3);
      errors := map[];
    }

    /**
     * `handleFeatureToggle`: writes back only `specificFeatures`, as the
     * toggled list; a `true` in that field throws before anything is written.
     * A well-typed record stays well typed.
     */
    method HandleFeatureToggle(feature: string)
      modifies context
      ensures match FeatureList(Get(old(context.formData), "specificFeatures"))
        case Some(current) =>
          context.formData == old(context.formData)["specificFeatures" := Arr(ToggleFeature(current, feature))]
        case None =>
          context.formData == old(context.formData)
      ensures FormContext.IsFormData(old(context.formData)) ==> FormContext.IsFormData(context.formData)
      ensures context.currentStep == old(context.currentStep)
      ensures context.isSubmitting == old(context.isSubmitting)
      ensures context.submissionSuccess == old(context.submissionSuccess)
      ensures context.submissionError == old(context.submissionError)
    {
      var currentFeatures := FeatureList(Get(context.formData, "specificFeatures"));
      if currentFeatures.None? {
        return;
      }
      var toggled := ToggleFeature(currentFeatures.value, feature);
      context.UpdateFormData(map["specificFeatures" := Arr(toggled)]);
      assert context.formData == old(context.formData)["specificFeatures" := Arr(toggled)];
    }
  }
}
