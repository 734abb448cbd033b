/**
 * The simplified Jira issue record. Every attribute is a nullable Java `String`; a setter
 * `setX(v)` is the datatype update `issue.(x := v)`, which by construction changes only `x`.
 */
module IssueEntity {
  import opened Wrappers
  import JavaStrings

  datatype Issue = Issue(
    id: Option<string>,
    key: Option<string>,
    summary: Option<string>,
    description: Option<string>,
    status: Option<string>,
    priority: Option<string>,
    issueType: Option<string>,
    assignee: Option<string>,
    reporter: Option<string>,
    projectKey: Option<string>,
    projectName: Option<string>,
    created: Option<string>,
    updated: Option<string>,
    resolution: Option<string>)
  {
    /** `hasDescription()`: a description that is not null and not all whitespace. */
    function HasDescription(): (b: bool)
      ensures b <==> description.Some? &&
                     exists i | 0 <= i < |description.value| :: !JavaStrings.IsTrimmed(description.value[i])
    {
      JavaStrings.NonBlank(description)
    }

    /** `isAssigned()`: an assignee that is not null and not blank. */
    function IsAssigned(): (b: bool)
      ensures b <==> assignee.Some? &&
                     exists i | 0 <= i < |assignee.value| :: !JavaStrings.IsTrimmed(assignee.value[i])
    {
      JavaStrings.NonBlank(assignee)
    }

    /** `isResolved()`: a resolution that is not null and not blank. */
    function IsResolved(): (b: bool)
      ensures b <==> resolution.Some? &&
                     exists i | 0 <= i < |resolution.value| :: !JavaStrings.IsTrimmed(resolution.value[i])
    {
      JavaStrings.NonBlank(resolution)
    }

    /** `getDisplayName()`: the summary whenever it is non-null (even if empty), else the key (a definition). */
    function DisplayName(): (r: Option<string>)
      ensures summary.Some? ==> r == summary
      ensures summary.None? ==> r == key
    {
      if summary.Some? then summary else key
    }
  }

  /** `new Issue()`: every attribute null, so it has nothing to describe, assign, resolve or display. */
  function EmptyIssue(): (r: Issue)
    ensures !r.HasDescription() && !r.IsAssigned() && !r.IsResolved() && r.DisplayName().None?
  {
    Issue(None, None, None, None, None, None, None, None, None, None, None, None, None, None)
  }

  /** `new Issue(id, key, summary)`: those three attributes set, every other one null. */
  function NewIssue(id: Option<string>, key: Option<string>, summary: Option<string>): (r: Issue)
    ensures r.id == id && r.key == key && r.summary == summary
    ensures r.(id := None, key := None, summary := None) == EmptyIssue()
  {
    EmptyIssue().(id := id, key := key, summary := summary)
  }

  /** An issue built with a summary is displayed by it, and the new issue is neither assigned nor resolved. */
  lemma NewIssueDisplay(id: Option<string>, key: Option<string>, summary: string)
    ensures NewIssue(id, key, Some(summary)).DisplayName() == Some(summary)
    ensures !NewIssue(id, key, Some(summary)).IsAssigned()
    ensures !NewIssue(id, key, Some(summary)).IsResolved()
    ensures !NewIssue(id, key, Some(summary)).HasDescription()
  {
  }
}
