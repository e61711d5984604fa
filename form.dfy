/** The slice of svelte-simple-form's FormControlContext that the validators
    use: the error map, the validating flag and their four mutators. */
module Form {
  import opened Issues

  class FormControl {
    var errors: ErrorMap
    var isValidating: bool

    constructor (errors: ErrorMap)
      ensures this.errors == errors && !isValidating
    {
      this.errors := errors;
      isValidating := false;
    }

    /** setErrors: replaces the whole error map. */
    method SetErrors(errors: ErrorMap)
      modifies this
      ensures this.errors == errors && isValidating == old(isValidating)
    {
      this.errors := errors;
    }

    /** setError: sets the messages at one path, replacing any earlier ones. */
    method SetError(path: string, messages: seq<string>)
      modifies this
      ensures errors == old(errors)[path := messages] && isValidating == old(isValidating)
    {
      errors := errors[path := messages];
    }

    /** removeError: drops the entry at one path, if any. */
    method RemoveError(path: string)
      modifies this
      ensures errors == old(errors) - {path} && isValidating == old(isValidating)
    {
      errors := errors - {path};
    }

    /** setIsValidating: sets the validating flag. */
    method SetIsValidating(validating: bool)
      modifies this
      ensures isValidating == validating && errors == old(errors)
    {
      isValidating := validating;
    }
  }
}
