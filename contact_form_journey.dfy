/** The component's submit journey run on the sample data of the validator
    tests. */
module ContactFormJourney {
  import opened FormValidation
  import opened ValidationExamples
  import opened ContactFormComponent

  /** The journey with the sample data. */
  method SubmitSampleForm() returns (dataAfter: ContactFormData, toast: bool, submitting: bool)
    ensures dataAfter == InitialFormData && toast && !submitting
  {
    SampleFormValid();
    dataAfter, toast, submitting := SubmitJourney(SampleForm);
  }
}
