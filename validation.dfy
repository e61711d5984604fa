/** standardSchemaValidator (src/standard-schema/index.ts): the call sequencer
    and the two reconciliations, validateForm and validateField. Each async
    operation is split at its await into a Begin method (everything before
    the schema engine is called) and a Finish method (everything after it
    resolves), which receives the engine's result as a parameter. */
module Validation {
  import opened Wrappers
  import opened Issues
  import opened Reconcile
  import opened Form

  /** A call identity; a fresh one is minted for every call. */
  type Token = nat

  /** What the schema engine resolves to: a result without an `issues` field,
      or one carrying a list of issues (possibly empty). */
  datatype SchemaResult = Passed | Failed(issues: seq<Issue>)

  /** The validator returned by standardSchemaValidator: its dependency
      configuration and the two token registries its closures share. */
  class Validator {
    const dependencies: map<string, seq<string>>
    var latestFormCall: Option<Token>
    var latestCall: map<string, Token>
    var minted: nat

    /** Every registered token has already been minted. */
    ghost predicate Valid()
      reads this
    {
      && (latestFormCall.Some? ==> latestFormCall.value <= minted)
      && forall f :: f in latestCall ==> latestCall[f] <= minted
    }

    constructor (dependencies: map<string, seq<string>>)
      ensures Valid()
      ensures this.dependencies == dependencies
      ensures latestFormCall == None && latestCall == map[]
    {
      this.dependencies := dependencies;
      latestFormCall := None;
      latestCall := map[];
      minted := 0;
    }

    /** getFieldsToCheck: the field, then its configured dependents in order. */
    function FieldsToCheck(field: string): (fields: seq<string>)
      ensures |fields| >= 1 && fields[0] == field
      ensures field in dependencies ==> fields[1..] == dependencies[field]
      ensures field !in dependencies ==> fields == [field]
    {
      [field] + if field in dependencies then dependencies[field] else []
    }

    /** The whole-form call holding `t` is still the latest one. */
    predicate IsFormCallCurrent(t: Token)
      reads this
    {
      latestFormCall == Some(t)
    }

    /** The call for `field` holding `t` is still the latest one for `field`. */
    predicate IsFieldCallCurrent(field: string, t: Token)
      reads this
    {
      field in latestCall && latestCall[field] == t
    }

    /** validateForm up to the await: flag set, a new token registered as the
        latest whole-form call, errors optimistically cleared. */
    method BeginValidateForm(form: FormControl) returns (t: Token)
      requires Valid()
      modifies this, form
      ensures Valid()
      ensures t == old(minted) + 1 && minted == t
      ensures old(latestFormCall).Some? ==> old(latestFormCall).value < t
      ensures forall f :: f in old(latestCall) ==> old(latestCall)[f] < t
      ensures latestFormCall == Some(t) && latestCall == old(latestCall)
      ensures forall other :: other != t ==> !IsFormCallCurrent(other)
      ensures form.errors == map[] && form.isValidating
    {
      form.SetIsValidating(true);
      minted := minted + 1;
      t := minted;
      latestFormCall := Some(t);
      form.SetErrors(map[]);
    }

    /** validateForm after the await: a superseded call changes nothing and
        returns false; otherwise the form's errors become the converted
        issues (kept as they are when there are none), the flag is reset,
        and the result is true iff the engine reported no issues. */
    method FinishValidateForm(form: FormControl, t: Token, result: SchemaResult) returns (valid: bool)
      modifies form
      ensures !IsFormCallCurrent(t) ==> !valid && unchanged(form)
      ensures IsFormCallCurrent(t) && result.Passed? ==>
                valid && form.errors == old(form.errors) && !form.isValidating
      ensures IsFormCallCurrent(t) && result.Failed? ==>
                !valid && form.errors == Convert(result.issues) && !form.isValidating
      ensures NonEmptyLists(old(form.errors)) ==> NonEmptyLists(form.errors)
    {
      if latestFormCall != Some(t) {
        return false;
      }
      if result.Passed? {
        form.SetIsValidating(false);
        return true;
      }
      var errors := ConvertIssues(result.issues);
      ConvertNonEmpty(result.issues);
      form.SetErrors(errors);
      form.SetIsValidating(false);
      return false;
    }

    /** validateField up to the await: flag set and a new token registered as
        the latest call for `field`; other fields and the form slot keep theirs. */
    method BeginValidateField(field: string, form: FormControl) returns (t: Token)
      requires Valid()
      modifies this, form
      ensures Valid()
      ensures t == old(minted) + 1 && minted == t
      ensures old(latestFormCall).Some? ==> old(latestFormCall).value < t
      ensures forall f :: f in old(latestCall) ==> old(latestCall)[f] < t
      ensures latestCall == old(latestCall)[field := t] && latestFormCall == old(latestFormCall)
      ensures forall other :: other != t ==> !IsFieldCallCurrent(field, other)
      ensures form.errors == old(form.errors) && form.isValidating
    {
      form.SetIsValidating(true);
      minted := minted + 1;
      t := minted;
      latestCall := latestCall[field := t];
    }

    /** validateField after the await: a superseded call changes nothing and
        returns false. Without issues only the entry at `field` is removed and
        true is returned, the flag left as it is. With issues every field to
        check is reconciled in order, the flag is reset, and the result is
        true iff none of them had an error. */
    method FinishValidateField(field: string, form: FormControl, t: Token, result: SchemaResult)
      returns (valid: bool)
      modifies form
      ensures !IsFieldCallCurrent(field, t) ==> !valid && unchanged(form)
      ensures IsFieldCallCurrent(field, t) && result.Passed? ==>
                valid && form.errors == old(form.errors) - {field}
                && form.isValidating == old(form.isValidating)
      ensures IsFieldCallCurrent(field, t) && result.Failed? ==>
                var current := Convert(result.issues);
                && valid == AllClear(current, FieldsToCheck(field))
                && form.errors == ApplyFields(old(form.errors), current, FieldsToCheck(field))
                && !form.isValidating
      ensures NonEmptyLists(old(form.errors)) ==> NonEmptyLists(form.errors)
    {
      if !(field in latestCall && latestCall[field] == t) {
        return false;
      }
      if result.Passed? {
        form.RemoveError(field);
        return true;
      }
      var errors := ConvertIssues(result.issues);
      var fieldsToCheck := FieldsToCheck(field);
      ghost var before := form.errors;
      valid := ReconcileFields(form, errors, fieldsToCheck);
      ConvertNonEmpty(result.issues);
      if NonEmptyLists(before) {
        ApplyFieldsKeepsNonEmpty(before, errors, fieldsToCheck);
      }
      form.SetIsValidating(false);
    }
  }

  /** validateField's loop over the fields to check: each is reconciled in
      turn, and the result is true iff none of them had an error. */
  method ReconcileFields(form: FormControl, current: ErrorMap, fields: seq<string>) returns (valid: bool)
    modifies form
    ensures valid == AllClear(current, fields)
    ensures form.errors == ApplyFields(old(form.errors), current, fields)
    ensures form.isValidating == old(form.isValidating)
  {
    valid := true;
    for i := 0 to |fields|
      invariant form.errors == ApplyFields(old(form.errors), current, fields[..i])
      invariant valid == AllClear(current, fields[..i])
      invariant form.isValidating == old(form.isValidating)
    {
      assert fields[..i + 1][..i] == fields[..i];
      var hasAnyError := ReconcileField(form, current, fields[i]);
      if hasAnyError {
        valid := false;
      }
    }
    assert fields[..|fields|] == fields;
  }

  /** One pass of validateField's loop for `field`: clear, then re-apply. */
  method ReconcileField(form: FormControl, current: ErrorMap, field: string) returns (hasAnyError: bool)
    modifies form
    ensures hasAnyError == HasAnyError(current, field)
    ensures form.errors == ApplyField(old(form.errors), current, field)
    ensures form.isValidating == old(form.isValidating)
  {
    ClearCovered(form, field);
    var directErrors := DirectErrors(current, field);
    var childErrors := ChildErrors(current, field);
    var hasChildMessages := HasChildMessages(current, field);
    hasAnyError := directErrors != [] || hasChildMessages;
    if hasAnyError {
      if directErrors != [] {
        form.SetError(field, directErrors);
      } else if hasChildMessages {
        form.SetError(field, [Summary]);
      }
      SetAll(form, childErrors);
    }
  }

  /** Removes every entry at or under `field`, walking a snapshot of the keys. */
  method ClearCovered(form: FormControl, field: string)
    modifies form
    ensures form.errors == Cleared(old(form.errors), field)
    ensures form.isValidating == old(form.isValidating)
  {
    var keys := form.errors.Keys;
    while keys != {}
      invariant keys <= old(form.errors).Keys
      invariant forall k :: k in form.errors <==> k in old(form.errors) && (k in keys || !Covers(field, k))
      invariant forall k :: k in form.errors ==> form.errors[k] == old(form.errors)[k]
      invariant form.isValidating == old(form.isValidating)
      decreases keys
    {
      var k :| k in keys;
      if Covers(field, k) {
        form.RemoveError(k);
      }
      keys := keys - {k};
    }
  }

  /** Sets every entry of `entries` on the form, one key at a time. */
  method SetAll(form: FormControl, entries: ErrorMap)
    modifies form
    ensures form.errors == old(form.errors) + entries
    ensures form.isValidating == old(form.isValidating)
  {
    var keys := entries.Keys;
    while keys != {}
      invariant keys <= entries.Keys
      invariant forall k :: k in form.errors <==> k in old(form.errors) || (k in entries && k !in keys)
      invariant forall k :: k in entries && k !in keys ==> form.errors[k] == entries[k]
      invariant forall k :: k in old(form.errors) && (k !in entries || k in keys) ==> form.errors[k] == old(form.errors)[k]
      invariant form.isValidating == old(form.isValidating)
      decreases keys
    {
      var k :| k in keys;
      form.SetError(k, entries[k]);
      keys := keys - {k};
    }
  }
}
