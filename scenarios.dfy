/** Whole calls of the validator driven end to end: overlapping calls, a
    dependency cascade and the summary message of a list field. */
module Scenarios {
  import opened Wrappers
  import opened Issues
  import opened Reconcile
  import opened Form
  import opened Validation

  /** "email" is validated by a slow run that will report an error, then at
      once by a quick run that reports none. Whatever order they resolve in,
      the slow (superseded) run returns false and the error is gone. */
  method SupersededFieldCall(slowIssues: seq<Issue>, quickFirst: bool)
    returns (staleValid: bool, latestValid: bool, emailFlagged: bool)
    ensures !staleValid && latestValid && !emailFlagged
  {
    var form := new FormControl(map["email" := ["Email is taken"]]);
    var validator := new Validator(map[]);
    var slow := validator.BeginValidateField("email", form);
    var quick := validator.BeginValidateField("email", form);
    if quickFirst {
      latestValid := validator.FinishValidateField("email", form, quick, Passed);
      staleValid := validator.FinishValidateField("email", form, slow, Failed(slowIssues));
    } else {
      staleValid := validator.FinishValidateField("email", form, slow, Failed(slowIssues));
      latestValid := validator.FinishValidateField("email", form, quick, Passed);
    }
    emailFlagged := "email" in form.errors;
  }

  /** A field call begun while a whole-form call is pending does not make the
      form call stale: the registries are disjoint. */
  method FormCallSurvivesFieldCall(issues: seq<Issue>) returns (valid: bool, errors: ErrorMap)
    ensures !valid && errors == Convert(issues)
  {
    var form := new FormControl(map[]);
    var validator := new Validator(map[]);
    var formCall := validator.BeginValidateForm(form);
    var fieldCall := validator.BeginValidateField("name", form);
    valid := validator.FinishValidateForm(form, formCall, Failed(issues));
    errors := form.errors;
  }

  /** With "password" depending on "confirmPassword", validating "password"
      when only "confirmPassword" has an issue drops the stale error on
      "password", sets the one on "confirmPassword" and reports invalid. */
  method DependencyCascade() returns (valid: bool, errors: ErrorMap)
    ensures !valid
    ensures "password" !in errors
    ensures Lookup(errors, "confirmPassword") == Some(["Passwords do not match"])
  {
    var form := new FormControl(map["password" := ["Too short"]]);
    var validator := new Validator(map["password" := ["confirmPassword"]]);
    var t := validator.BeginValidateField("password", form);
    var before := form.errors;
    var issue := Issue(Some("confirmPassword"), "Passwords do not match");
    valid := validator.FinishValidateField("password", form, t, Failed([issue]));
    errors := form.errors;

    var fields := ["password", "confirmPassword"];
    assert validator.FieldsToCheck("password") == fields;
    ConvertSingle(issue);
    var current := map["confirmPassword" := ["Passwords do not match"]];
    assert Convert([issue]) == current;
    assert !Covers("confirmPassword", "password") by {
      assert "password"[0] != "confirmPassword"[0];
      assert ("confirmPassword" + ".")[0] == "confirmPassword"[0];
    }
    assert !Covers("password", "confirmPassword") by {
      assert "password"[0] != "confirmPassword"[0];
      assert ("password" + ".")[0] == "password"[0];
    }
    assert !HasChild(current, "confirmPassword") by {
      NotOwnChild("confirmPassword");
    }
    assert LastCovering(fields, "password") == Some(0);
    assert LastCovering(fields, "confirmPassword") == Some(1);
    ApplyFieldsAt(before, current, fields, "password");
    ApplyFieldsAt(before, current, fields, "confirmPassword");
    assert HasAnyError(current, "confirmPassword");
  }

  /** Validating the list field "items" when only "items.0.name" has an issue
      puts the single summary message on "items" and the original message on
      "items.0.name"; the stale error on "items.3.name" is gone. */
  method ListSummary() returns (valid: bool, errors: ErrorMap)
    ensures !valid
    ensures Lookup(errors, "items") == Some([Summary])
    ensures Lookup(errors, "items.0.name") == Some(["Required"])
    ensures "items.3.name" !in errors
  {
    var form := new FormControl(map["items" := ["Too few items"], "items.3.name" := ["Required"]]);
    var validator := new Validator(map[]);
    var t := validator.BeginValidateField("items", form);
    var before := form.errors;
    var issue := Issue(Some("items.0.name"), "Required");
    valid := validator.FinishValidateField("items", form, t, Failed([issue]));
    errors := form.errors;

    var fields := ["items"];
    assert validator.FieldsToCheck("items") == fields;
    ConvertSingle(issue);
    var current := map["items.0.name" := ["Required"]];
    assert IssueKey(issue) == "items.0.name" by {
      assert "items.0.name" != "";
    }
    assert Convert([issue]) == current;
    assert IsChild("items.0.name", "items") by {
      assert "items" + "." == "items.0.name"[..6];
    }
    assert "items.0.name" != "items" by {
      assert |"items.0.name"| != |"items"|;
    }
    assert LastCovering(fields, "items") == Some(0);
    assert LastCovering(fields, "items.0.name") == Some(0);
    ApplyFieldsAt(before, current, fields, "items");
    ApplyFieldsAt(before, current, fields, "items.0.name");
    assert IsChild("items.3.name", "items") by {
      assert "items" + "." == "items.3.name"[..6];
    }
    assert "items.3.name" != "items" by {
      assert |"items.3.name"| != |"items"|;
    }
    assert "items.3.name" !in current by {
      assert "items.3.name"[6] != "items.0.name"[6];
    }
    assert LastCovering(fields, "items.3.name") == Some(0);
    ApplyFieldsAt(before, current, fields, "items.3.name");
    assert HasAnyError(current, "items");
  }
}
