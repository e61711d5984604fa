/** Conversion of the schema engine's flat issue list into an error map from
    dotted path to messages (convertIssues in src/standard-schema/index.ts). */
module Issues {
  import opened Wrappers

  /** The key under which an issue without a usable path is filed. */
  const FormKey: string := "_form"

  /** One issue reported by the schema engine. `dotPath` is what the engine-side
      helper getDotPath makes of the issue's path: None when the path is missing
      or cannot be rendered as a dotted string, Some(path) otherwise. */
  datatype Issue = Issue(dotPath: Option<string>, message: string)

  /** Dotted path -> messages, as held by the form and built by convertIssues. */
  type ErrorMap = map<string, seq<string>>

  /** Every key of `errors` carries at least one message. */
  ghost predicate NonEmptyLists(errors: ErrorMap)
  {
    forall k :: k in errors ==> errors[k] != []
  }

  /** The key an issue is filed under: its dotted path, or FormKey when that
      path is absent or the empty string. */
  function IssueKey(issue: Issue): (k: string)
    ensures issue.dotPath == None || issue.dotPath == Some("") ==> k == FormKey
    ensures issue.dotPath.Some? && issue.dotPath.value != "" ==> k == issue.dotPath.value
  {
    match issue.dotPath
    case Some(p) => if p != "" then p else FormKey
    case None => FormKey
  }

  /** Appends the issue's message to the list at its key, creating the list
      when the key is new. */
  function File(errors: ErrorMap, issue: Issue): (r: ErrorMap)
  {
    var k := IssueKey(issue);
    errors[k := (if k in errors then errors[k] else []) + [issue.message]]
  }

  /** The map convertIssues builds: the issues filed one after another. */
  function Convert(issues: seq<Issue>): (r: ErrorMap)
  {
    if issues == [] then map[] else File(Convert(issues[..|issues| - 1]), issues[|issues| - 1])
  }

  /** convertIssues: fills a fresh map in one pass over the issues. */
  method ConvertIssues(issues: seq<Issue>) returns (errors: ErrorMap)
    ensures errors == Convert(issues)
  {
    errors := map[];
    for i := 0 to |issues|
      invariant errors == Convert(issues[..i])
    {
      var path := IssueKey(issues[i]);
      var list := if path in errors then errors[path] else [];
      errors := errors[path := list + [issues[i].message]];
      assert issues[..i + 1][..i] == issues[..i];
    }
    assert issues[..|issues|] == issues;
  }

  /** Reference definition: the messages of the issues filed under `k`, in
      issue order, duplicates kept. */
  function MessagesFor(issues: seq<Issue>, k: string): (r: seq<string>)
  {
    if issues == [] then []
    else (if IssueKey(issues[0]) == k then [issues[0].message] else []) + MessagesFor(issues[1..], k)
  }

  lemma {:induction false} MessagesForSnoc(issues: seq<Issue>, x: Issue, k: string)
    ensures MessagesFor(issues + [x], k)
         == MessagesFor(issues, k) + (if IssueKey(x) == k then [x.message] else [])
  {
    if issues == [] {
      assert [] + [x] == [x];
      assert [x][1..] == [];
    } else {
      assert (issues + [x])[1..] == issues[1..] + [x];
      MessagesForSnoc(issues[1..], x, k);
    }
  }

  /** The list at each key is exactly the messages of the issues filed under
      that key, in issue order and without deduplication; a key is present
      iff some issue is filed under it. */
  lemma {:induction false} ConvertIsFilter(issues: seq<Issue>, k: string)
    ensures k in Convert(issues) <==> MessagesFor(issues, k) != []
    ensures k in Convert(issues) ==> Convert(issues)[k] == MessagesFor(issues, k)
  {
    if issues != [] {
      var n := |issues| - 1;
      ConvertIsFilter(issues[..n], k);
      MessagesForSnoc(issues[..n], issues[n], k);
      assert issues[..n] + [issues[n]] == issues;
    }
  }

  /** Every key of the converted map carries a non-empty list. */
  lemma {:induction false} ConvertNonEmpty(issues: seq<Issue>)
    ensures NonEmptyLists(Convert(issues))
  {
    forall k | k in Convert(issues)
      ensures Convert(issues)[k] != []
    {
      ConvertIsFilter(issues, k);
    }
  }

  /** The keys of the converted map are exactly the keys of the issues. */
  lemma {:induction false} ConvertKeys(issues: seq<Issue>, k: string)
    ensures k in Convert(issues) <==> exists j :: 0 <= j < |issues| && IssueKey(issues[j]) == k
  {
    if issues != [] {
      var n := |issues| - 1;
      ConvertKeys(issues[..n], k);
      if k in Convert(issues[..n]) {
        var j :| 0 <= j < n && IssueKey(issues[..n][j]) == k;
        assert IssueKey(issues[j]) == k;
      }
      if j :| 0 <= j < |issues| && IssueKey(issues[j]) == k {
        if j < n {
          assert IssueKey(issues[..n][j]) == k;
        }
      }
    }
  }

  /** Each issue's message is filed under the issue's key. */
  lemma {:induction false} ConvertFilesEach(issues: seq<Issue>, j: nat)
    requires j < |issues|
    ensures IssueKey(issues[j]) in Convert(issues)
    ensures issues[j].message in Convert(issues)[IssueKey(issues[j])]
  {
    MessagesForContains(issues, j);
    ConvertIsFilter(issues, IssueKey(issues[j]));
  }

  lemma {:induction false} MessagesForContains(issues: seq<Issue>, j: nat)
    requires j < |issues|
    ensures issues[j].message in MessagesFor(issues, IssueKey(issues[j]))
  {
    if j > 0 {
      MessagesForContains(issues[1..], j - 1);
    }
  }

  /** An arbitrary key of a non-empty map. */
  ghost function PickKey(errors: ErrorMap): (k: string)
    requires errors != map[]
    ensures k in errors
  {
    assert errors.Keys != {};
    var k :| k in errors; k
  }

  /** The number of messages held in `errors`, over all keys. */
  ghost function TotalMessages(errors: ErrorMap): (r: nat)
    decreases |errors.Keys|
  {
    if errors == map[] then 0
    else
      var k := PickKey(errors);
      assert (errors - {k}).Keys == errors.Keys - {k};
      |errors[k]| + TotalMessages(errors - {k})
  }

  /** TotalMessages does not depend on the key taken first. */
  lemma {:induction false} TotalMessagesAt(errors: ErrorMap, k: string)
    requires k in errors
    ensures TotalMessages(errors) == |errors[k]| + TotalMessages(errors - {k})
    decreases |errors.Keys|
  {
    var j := PickKey(errors);
    if j != k {
      assert (errors - {j}).Keys == errors.Keys - {j};
      assert (errors - {k}).Keys == errors.Keys - {k};
      TotalMessagesAt(errors - {j}, k);
      TotalMessagesAt(errors - {k}, j);
      assert errors - {j} - {k} == errors - {k} - {j};
    }
  }

  /** Filing one issue adds exactly one message. */
  lemma FileAddsOne(errors: ErrorMap, issue: Issue)
    ensures TotalMessages(File(errors, issue)) == TotalMessages(errors) + 1
  {
    var k := IssueKey(issue);
    var r := File(errors, issue);
    TotalMessagesAt(r, k);
    if k in errors {
      TotalMessagesAt(errors, k);
      assert r - {k} == errors - {k};
    } else {
      assert r - {k} == errors;
    }
  }

  /** The converted map holds as many messages as there are issues. */
  lemma {:induction false} ConvertTotal(issues: seq<Issue>)
    ensures TotalMessages(Convert(issues)) == |issues|
  {
    if issues != [] {
      var n := |issues| - 1;
      ConvertTotal(issues[..n]);
      FileAddsOne(Convert(issues[..n]), issues[n]);
    }
  }

  /** A single issue yields a single entry holding its message. */
  lemma ConvertSingle(issue: Issue)
    ensures Convert([issue]) == map[IssueKey(issue) := [issue.message]]
  {
    assert [issue][..0] == [];
    var none: seq<string> := [];
    assert none + [issue.message] == [issue.message];
  }

  /** A nested path and a form-level issue. */
  lemma ConvertExample()
    ensures Convert([Issue(Some("user.name"), "required"), Issue(None, "form invalid")])
         == map["user.name" := ["required"], FormKey := ["form invalid"]]
  {
    var issues := [Issue(Some("user.name"), "required"), Issue(None, "form invalid")];
    var one := issues[..1];
    assert one[..0] == [] && one[0] == issues[0];
    assert IssueKey(issues[0]) == "user.name" by {
      assert "user.name" != "";
    }
    assert Convert(one) == File(map[], issues[0]);
    var none: seq<string> := [];
    assert none + ["required"] == ["required"];
    assert none + ["form invalid"] == ["form invalid"];
    assert Convert(one) == map["user.name" := ["required"]];
    assert FormKey != "user.name" by {
      assert FormKey[0] != "user.name"[0];
    }
    assert Convert(issues) == File(Convert(one), issues[1]);
  }
}
