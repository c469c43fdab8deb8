/**
 * `validateCheckbox` and `validateRadioGroup`: one-line required checks
 * sharing the options object `{required, customMessage}`.
 */
module Choice {
  import opened Results

  datatype ChoiceOptions = ChoiceOptions(required: bool, customMessage: string)

  const DefaultChoiceOptions := ChoiceOptions(false, "")

  const CheckboxMessage := "Please check the checkbox."
  const RadioGroupMessage := "Please select a value from the radio group."

  /** `validateCheckbox`. */
  function ValidateCheckbox(isChecked: bool, options: ChoiceOptions): (r: ValidationResult)
    ensures r.isValid <==> !options.required || isChecked
    ensures WellFormed(r)
    ensures !r.isValid ==> r.errorMessage == OrDefault(options.customMessage, CheckboxMessage)
  {
    var isValid := !options.required || isChecked;
    if isValid then Valid else Invalid(options.customMessage, CheckboxMessage)
  }

  /** `validateRadioGroup`: a selection is the empty string when nothing is
      selected. */
  function ValidateRadioGroup(selectedValue: string, options: ChoiceOptions): (r: ValidationResult)
    ensures r.isValid <==> !options.required || selectedValue != ""
    ensures WellFormed(r)
    ensures !r.isValid ==> r.errorMessage == OrDefault(options.customMessage, RadioGroupMessage)
  {
    var isValid := !options.required || selectedValue != "";
    if isValid then Valid else Invalid(options.customMessage, RadioGroupMessage)
  }

  /** Neither check can fail when the field is optional. */
  lemma OptionalChoiceAlwaysValid(isChecked: bool, selectedValue: string, customMessage: string)
    ensures ValidateCheckbox(isChecked, ChoiceOptions(false, customMessage)) == Valid
    ensures ValidateRadioGroup(selectedValue, ChoiceOptions(false, customMessage)) == Valid
  {
  }
}
