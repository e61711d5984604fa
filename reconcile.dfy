/** The clear-then-set policy validateField applies to one checked field and
    its children (src/standard-schema/index.ts, lines 82-139), as functions
    over the form's error map and the one converted from this run's issues. */
module Reconcile {
  import opened Wrappers
  import opened Issues

  /** The parent-level message set when only child paths have errors. */
  const Summary: string := "One or more items are invalid"

  /** `key` lies under `field`: it starts with `field + "."`. */
  predicate IsChild(key: string, field: string)
  {
    field + "." <= key
  }

  /** `key` is `field` itself or one of its children. */
  predicate Covers(field: string, key: string)
  {
    key == field || IsChild(key, field)
  }

  /** Step 1: every entry at or under `field` removed, the rest kept. */
  function Cleared(errors: ErrorMap, field: string): (r: ErrorMap)
  {
    map k | k in errors && !Covers(field, k) :: errors[k]
  }

  /** The messages of this run filed at `field` itself (`directErrors`). */
  function DirectErrors(current: ErrorMap, field: string): (r: seq<string>)
  {
    if field in current then current[field] else []
  }

  /** The entries of this run under `field` (`childErrors.childMap`). */
  function ChildErrors(current: ErrorMap, field: string): (r: ErrorMap)
  {
    map k | k in current && IsChild(k, field) :: current[k]
  }

  /** Some child entry carries a message (`allChildMsgs.length > 0`). */
  predicate HasChildMessages(current: ErrorMap, field: string)
  {
    exists k :: k in current && IsChild(k, field) && current[k] != []
  }

  /** `hasAnyError` for `field`. */
  predicate HasAnyError(current: ErrorMap, field: string)
  {
    DirectErrors(current, field) != [] || HasChildMessages(current, field)
  }

  /** The form's errors after `field` has been reconciled: cleared, then the
      direct messages or the summary at `field`, then every child entry. */
  function ApplyField(errors: ErrorMap, current: ErrorMap, field: string): (r: ErrorMap)
  {
    var cleared := Cleared(errors, field);
    if !HasAnyError(current, field) then cleared
    else
      var parent :=
        if DirectErrors(current, field) != [] then cleared[field := DirectErrors(current, field)]
        else if HasChildMessages(current, field) then cleared[field := [Summary]]
        else cleared;
      parent + ChildErrors(current, field)
  }

  /** The form's errors after the checked fields have been reconciled in order. */
  function ApplyFields(errors: ErrorMap, current: ErrorMap, fields: seq<string>): (r: ErrorMap)
  {
    if fields == [] then errors
    else ApplyField(ApplyFields(errors, current, fields[..|fields| - 1]), current, fields[|fields| - 1])
  }

  /** The `valid` flag after all checked fields: none had an error. */
  predicate AllClear(current: ErrorMap, fields: seq<string>)
  {
    forall i :: 0 <= i < |fields| ==> !HasAnyError(current, fields[i])
  }

  /** Some key of this run lies under `field`. */
  predicate HasChild(current: ErrorMap, field: string)
  {
    exists k :: k in current && IsChild(k, field)
  }

  /** Reference definition of what the form holds at a key covered by `field`
      once `field` is reconciled: the messages of this run at `field`, else the
      summary when some child has errors; at a child, its messages of this run. */
  function Promised(current: ErrorMap, field: string, key: string): (r: Option<seq<string>>)
    requires Covers(field, key)
  {
    if key == field then
      if field in current then Some(current[field])
      else if HasChild(current, field) then Some([Summary])
      else None
    else Lookup(current, key)
  }

  /** The index of the last field in `fields` that covers `key`, if any. */
  function LastCovering(fields: seq<string>, key: string): (r: Option<nat>)
    ensures r.Some? ==> r.value < |fields| && Covers(fields[r.value], key)
    ensures r.Some? ==> forall j :: r.value < j < |fields| ==> !Covers(fields[j], key)
    ensures r.None? ==> forall j :: 0 <= j < |fields| ==> !Covers(fields[j], key)
  {
    if fields == [] then None
    else if Covers(fields[|fields| - 1], key) then Some(|fields| - 1)
    else LastCovering(fields[..|fields| - 1], key)
  }

  /** A key is never a child of itself, so the child entries never overwrite
      the parent-level entry. */
  lemma NotOwnChild(field: string)
    ensures !IsChild(field, field)
  {
    assert |field + "."| > |field|;
  }

  /** With non-empty lists, `field` has an error iff this run's map has an
      entry at `field` or under it. */
  lemma HasAnyErrorIff(current: ErrorMap, field: string)
    requires NonEmptyLists(current)
    ensures HasAnyError(current, field) <==> field in current || HasChild(current, field)
  {
    if HasChild(current, field) {
      var k :| k in current && IsChild(k, field);
      assert current[k] != [];
    }
  }

  /** Reconciling `field` leaves every key it does not cover as it was. */
  lemma ApplyFieldFrame(errors: ErrorMap, current: ErrorMap, field: string, key: string)
    requires !Covers(field, key)
    ensures Lookup(ApplyField(errors, current, field), key) == Lookup(errors, key)
  {
  }

  /** Reconciling `field` leaves at every key it covers exactly what this run's
      map promises there, whatever the form held before. */
  lemma ApplyFieldCovered(errors: ErrorMap, current: ErrorMap, field: string, key: string)
    requires NonEmptyLists(current)
    requires Covers(field, key)
    ensures Lookup(ApplyField(errors, current, field), key) == Promised(current, field, key)
  {
    NotOwnChild(field);
    HasAnyErrorIff(current, field);
    if key == field && field !in current && HasChild(current, field) {
      var k :| k in current && IsChild(k, field);
      assert current[k] != [];
      assert HasChildMessages(current, field);
    }
    if key != field && key in current {
      assert current[key] != [];
      assert HasChildMessages(current, field);
    }
  }

  /** Keys covered by no checked field keep their prior entry. */
  lemma {:induction false} ApplyFieldsFrame(errors: ErrorMap, current: ErrorMap, fields: seq<string>, key: string)
    requires forall j :: 0 <= j < |fields| ==> !Covers(fields[j], key)
    ensures Lookup(ApplyFields(errors, current, fields), key) == Lookup(errors, key)
  {
    if fields != [] {
      var n := |fields| - 1;
      ApplyFieldsFrame(errors, current, fields[..n], key);
      ApplyFieldFrame(ApplyFields(errors, current, fields[..n]), current, fields[n], key);
    }
  }

  /** The entry at any key after all checked fields are reconciled: the prior
      entry when no checked field covers the key, otherwise what this run's map
      promises for the last checked field that covers it. */
  lemma {:induction false} ApplyFieldsAt(errors: ErrorMap, current: ErrorMap, fields: seq<string>, key: string)
    requires NonEmptyLists(current)
    ensures Lookup(ApplyFields(errors, current, fields), key)
         == match LastCovering(fields, key)
            case None => Lookup(errors, key)
            case Some(j) => Promised(current, fields[j], key)
  {
    if fields != [] {
      var n := |fields| - 1;
      var before := ApplyFields(errors, current, fields[..n]);
      if Covers(fields[n], key) {
        ApplyFieldCovered(before, current, fields[n], key);
      } else {
        ApplyFieldFrame(before, current, fields[n], key);
        ApplyFieldsAt(errors, current, fields[..n], key);
        assert LastCovering(fields, key) == LastCovering(fields[..n], key);
        match LastCovering(fields[..n], key)
        case None =>
        case Some(j) => assert fields[..n][j] == fields[j];
      }
    }
  }

  /** Whatever the form held before, keys covered by a checked field end up
      the same: no stale entry at or under a checked field survives. */
  lemma ApplyFieldsForgetsPrior(e1: ErrorMap, e2: ErrorMap, current: ErrorMap, fields: seq<string>, key: string)
    requires NonEmptyLists(current)
    requires exists j :: 0 <= j < |fields| && Covers(fields[j], key)
    ensures Lookup(ApplyFields(e1, current, fields), key) == Lookup(ApplyFields(e2, current, fields), key)
  {
    ApplyFieldsAt(e1, current, fields, key);
    ApplyFieldsAt(e2, current, fields, key);
  }

  /** Reconciliation keeps every list of the form non-empty when the form's
      and this run's lists are. */
  lemma ApplyFieldsKeepsNonEmpty(errors: ErrorMap, current: ErrorMap, fields: seq<string>)
    requires NonEmptyLists(errors) && NonEmptyLists(current)
    ensures NonEmptyLists(ApplyFields(errors, current, fields))
  {
    forall k | k in ApplyFields(errors, current, fields)
      ensures ApplyFields(errors, current, fields)[k] != []
    {
      ApplyFieldsAt(errors, current, fields, k);
    }
  }

  /** The returned validity: true iff no checked field has an entry of this run at or
      under it. */
  lemma AllClearIff(current: ErrorMap, fields: seq<string>)
    requires NonEmptyLists(current)
    ensures AllClear(current, fields)
        <==> forall i :: 0 <= i < |fields| ==> fields[i] !in current && !HasChild(current, fields[i])
  {
    forall i | 0 <= i < |fields| {
      HasAnyErrorIff(current, fields[i]);
    }
  }
}
