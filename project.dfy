/**
 * The simplified Jira project record. Every attribute is a nullable Java `String`; a setter
 * `setX(v)` is the datatype update `project.(x := v)`, which by construction changes only `x`.
 */
module ProjectEntity {
  import opened Wrappers
  import JavaStrings

  datatype Project = Project(
    id: Option<string>,
    key: Option<string>,
    name: Option<string>,
    description: Option<string>,
    url: Option<string>,
    avatarUrl: Option<string>,
    categoryName: Option<string>,
    leadName: Option<string>)
  {
    /** `hasDescription()`: a description that is not null and not blank. */
    function HasDescription(): (b: bool)
      ensures b <==> description.Some? &&
                     exists i | 0 <= i < |description.value| :: !JavaStrings.IsTrimmed(description.value[i])
    {
      JavaStrings.NonBlank(description)
    }

    /** `hasCategory()`: a category name that is not null and not blank. */
    function HasCategory(): (b: bool)
      ensures b <==> categoryName.Some? &&
                     exists i | 0 <= i < |categoryName.value| :: !JavaStrings.IsTrimmed(categoryName.value[i])
    {
      JavaStrings.NonBlank(categoryName)
    }

    /** `hasLead()`: a lead name that is not null and not blank. */
    function HasLead(): (b: bool)
      ensures b <==> leadName.Some? &&
                     exists i | 0 <= i < |leadName.value| :: !JavaStrings.IsTrimmed(leadName.value[i])
    {
      JavaStrings.NonBlank(leadName)
    }

    /** `getDisplayName()`: the name when it is non-null, else the key (a definition). */
    function DisplayName(): (r: Option<string>)
      ensures name.Some? ==> r == name
      ensures name.None? ==> r == key
    {
      if name.Some? then name else key
    }
  }

  /** `new Project()`: every attribute null, so it has no description, category, lead or display name. */
  function EmptyProject(): (r: Project)
    ensures !r.HasDescription() && !r.HasCategory() && !r.HasLead() && r.DisplayName().None?
  {
    Project(None, None, None, None, None, None, None, None)
  }

  /** `new Project(id, key, name)`: those three set; description, url, avatar, category and lead null. */
  function NewProject(id: Option<string>, key: Option<string>, name: Option<string>): (r: Project)
    ensures r.id == id && r.key == key && r.name == name
    ensures r.(id := None, key := None, name := None) == EmptyProject()
  {
    EmptyProject().(id := id, key := key, name := name)
  }

  /** A freshly constructed project has no description, category or lead. */
  lemma NewProjectHasNoDetails(id: Option<string>, key: Option<string>, name: Option<string>)
    ensures !NewProject(id, key, name).HasDescription()
    ensures !NewProject(id, key, name).HasCategory()
    ensures !NewProject(id, key, name).HasLead()
    ensures NewProject(id, key, name).DisplayName() == if name.Some? then name else key
  {
  }
}
