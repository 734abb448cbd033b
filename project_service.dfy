/**
 * `ProjectService`: turning Jira project payloads into `Project` records, and the project search
 * that filters the full list.
 */
module ProjectService {
  import opened Wrappers
  import opened JsonTree
  import opened ProjectEntity
  import opened JiraHttp
  import JavaStrings
  import Sequences

  // ---------------------------------------------------------------------------------------------
  // Decoding one project

  /**
   * `lead.displayName` when the lead has that member, else `lead.name` when it has that one,
   * else null. Presence is `has(..)`, so a JSON-null member still counts and reads as "null".
   */
  function LeadNameAt(node: JsonNode): Option<string> {
    var byDisplayName := RawTextAt(node, ["lead", "displayName"]);
    if byDisplayName.Some? then byDisplayName else RawTextAt(node, ["lead", "name"])
  }

  /**
   * Reference decoder. The five plain attributes are `getJsonString` of a top-level member
   * (`url` from `self`); avatar, category and lead are read through `has(..)` and `asText()`.
   */
  function ProjectFromJson(node: JsonNode): Project {
    Project(
      id := TextAt(node, ["id"]),
      key := TextAt(node, ["key"]),
      name := TextAt(node, ["name"]),
      description := TextAt(node, ["description"]),
      url := TextAt(node, ["self"]),
      avatarUrl := RawTextAt(node, ["avatarUrls", "48x48"]),
      categoryName := RawTextAt(node, ["projectCategory", "name"]),
      leadName := LeadNameAt(node))
  }

  /** Reading `parent.leaf` through `has`: the leaf's text when the parent has that member. */
  lemma RawTextAtNested(node: JsonNode, parent: string, leaf: string)
    ensures Get(node, parent).None? ==> RawTextAt(node, [parent, leaf]) == None
    ensures Get(node, parent).Some? && !Has(Get(node, parent).value, leaf) ==>
              RawTextAt(node, [parent, leaf]) == None
    ensures Get(node, parent).Some? && Has(Get(node, parent).value, leaf) ==>
              RawTextAt(node, [parent, leaf]) == Some(AsText(Get(Get(node, parent).value, leaf).value))
  {
    assert [parent, leaf][0] == parent && [parent, leaf][1..] == [leaf];
    if Get(node, parent).Some? {
      var p := Get(node, parent).value;
      assert GetPath(node, [parent, leaf]) == GetPath(p, [leaf]);
      assert [leaf][0] == leaf && [leaf][1..] == [];
      if Has(p, leaf) {
        assert GetPath(Get(p, leaf).value, []) == Get(p, leaf);
        assert GetPath(p, [leaf]) == Get(p, leaf);
      } else {
        assert GetPath(p, [leaf]) == None;
      }
    }
  }

  /**
   * How each attribute is read: the plain ones by `getJsonString`; `avatarUrl` is the text of
   * `avatarUrls["48x48"]`, `categoryName` of `projectCategory.name`, both null when the parent
   * or the entry is missing; `leadName` prefers `lead.displayName`, then `lead.name`.
   */
  lemma ProjectAttributes(node: JsonNode)
    ensures var p := ProjectFromJson(node);
      && p.id == GetJsonString(node, "id")
      && p.key == GetJsonString(node, "key")
      && p.name == GetJsonString(node, "name")
      && p.description == GetJsonString(node, "description")
      && p.url == GetJsonString(node, "self")
      && p.avatarUrl == HasText(Get(node, "avatarUrls"), "48x48")
      && p.categoryName == HasText(Get(node, "projectCategory"), "name")
      && p.leadName == (if HasText(Get(node, "lead"), "displayName").Some?
                        then HasText(Get(node, "lead"), "displayName")
                        else HasText(Get(node, "lead"), "name"))
  {
    TextAtSingleMember(node, "id");
    TextAtSingleMember(node, "key");
    TextAtSingleMember(node, "name");
    TextAtSingleMember(node, "description");
    TextAtSingleMember(node, "self");
    RawTextAtNested(node, "avatarUrls", "48x48");
    RawTextAtNested(node, "projectCategory", "name");
    RawTextAtNested(node, "lead", "displayName");
    RawTextAtNested(node, "lead", "name");
  }

  /** `parent != null && parent.has(leaf) ? parent.get(leaf).asText() : null`. */
  function HasText(parent: Option<JsonNode>, leaf: string): Option<string> {
    if parent.Some? && Has(parent.value, leaf) then Some(AsText(Get(parent.value, leaf).value)) else None
  }

  /** `mapJsonToProject`: a fresh project filled by setter calls. It computes the reference decoding. */
  method MapJsonToProject(jsonProject: JsonNode) returns (project: Project)
    ensures project == ProjectFromJson(jsonProject)
  {
    project := EmptyProject();
    project := project.(id := GetJsonString(jsonProject, "id"));
    project := project.(key := GetJsonString(jsonProject, "key"));
    project := project.(name := GetJsonString(jsonProject, "name"));
    project := project.(description := GetJsonString(jsonProject, "description"));
    project := project.(url := GetJsonString(jsonProject, "self"));

    var avatarUrls := Get(jsonProject, "avatarUrls");
    if avatarUrls.Some? && Has(avatarUrls.value, "48x48") {
      project := project.(avatarUrl := Some(AsText(Get(avatarUrls.value, "48x48").value)));
    }

    var category := Get(jsonProject, "projectCategory");
    if category.Some? && Has(category.value, "name") {
      project := project.(categoryName := Some(AsText(Get(category.value, "name").value)));
    }

    var lead := Get(jsonProject, "lead");
    if lead.Some? {
      if Has(lead.value, "displayName") {
        project := project.(leadName := Some(AsText(Get(lead.value, "displayName").value)));
      } else if Has(lead.value, "name") {
        project := project.(leadName := Some(AsText(Get(lead.value, "name").value)));
      }
    }
    ProjectAttributes(jsonProject);
  }

  /** An avatar entry that is present but JSON null is read as the text "null", not as null. */
  lemma NullAvatarEntryReadsAsText(node: JsonNode, avatarUrls: JsonNode)
    requires Get(node, "avatarUrls") == Some(avatarUrls)
    requires Get(avatarUrls, "48x48") == Some(JNull)
    ensures ProjectFromJson(node).avatarUrl == Some("null")
  {
    ProjectAttributes(node);
  }

  // ---------------------------------------------------------------------------------------------
  // Decoding the project list

  /** Reference decoding of the list response: one project per element visited, in order. */
  function ProjectsFromJson(jsonArray: JsonNode): seq<Project> {
    var elems := Elements(jsonArray);
    seq(|elems|, i requires 0 <= i < |elems| => ProjectFromJson(elems[i]))
  }

  /** The loop of `getAllProjects`: one mapped project per element of the body, in order. */
  method DecodeProjectList(jsonArray: JsonNode) returns (projects: seq<Project>)
    ensures |projects| == |Elements(jsonArray)|
    ensures forall i | 0 <= i < |projects| :: projects[i] == ProjectFromJson(Elements(jsonArray)[i])
  {
    projects := [];
    var elems := Elements(jsonArray);
    for k := 0 to |elems|
      invariant |projects| == k
      invariant forall i | 0 <= i < k :: projects[i] == ProjectFromJson(elems[i])
    {
      var project := MapJsonToProject(elems[k]);
      projects := projects + [project];
    }
  }

  /** The project list `getAllProjects` returns for one HTTP outcome. */
  function ProjectsFromOutcome(response: HttpOutcome): Result<seq<Project>, ServiceError> {
    match response
    case Thrown => Failure(RuntimeFailure)
    case Response(status, body) =>
      if status != StatusOk then Success([])
      else if body.None? then Failure(RuntimeFailure)
      else Success(ProjectsFromJson(body.value))
  }

  /**
   * A response that reaches the status check with anything but 200 (a 204 or a 3xx that the
   * error handler lets through) gives an empty list rather than an error; a thrown exchange,
   * which is what a 4xx or 5xx becomes under the default error handler, gives an error.
   */
  lemma NonOkStatusGivesEmptyList(status: int, body: Option<JsonNode>)
    requires status != StatusOk
    ensures ProjectsFromOutcome(Response(status, body)) == Success([])
    ensures ProjectsFromOutcome(Thrown) == Failure(RuntimeFailure)
  {
  }

  /** An object body is iterated over its member values: one project per member, in order. */
  lemma ObjectBodyYieldsItsValues(members: seq<(string, JsonNode)>)
    ensures |ProjectsFromJson(JObject(members))| == |members|
    ensures forall i | 0 <= i < |members| :: ProjectsFromJson(JObject(members))[i] == ProjectFromJson(members[i].1)
  {
  }

  /** `getAllProjects()`, with the outcome of its single HTTP exchange given. */
  method GetAllProjects(response: HttpOutcome) returns (r: Result<seq<Project>, ServiceError>)
    ensures r == ProjectsFromOutcome(response)
  {
    if response.Thrown? {
      return Failure(RuntimeFailure);
    }
    if response.status == StatusOk {
      if response.body.None? {
        return Failure(RuntimeFailure);
      }
      var projects := DecodeProjectList(response.body.value);
      assert projects == ProjectsFromJson(response.body.value);
      r := Success(projects);
    } else {
      r := Success([]);
    }
  }

  /** `getProjectDetails(projectKey)`: status 200 maps the body; any other outcome throws. */
  method GetProjectDetails(projectKey: string, fetch: string -> HttpOutcome)
    returns (r: Result<Project, ServiceError>)
    ensures r.Success? <==> fetch(projectKey).Response? && fetch(projectKey).status == StatusOk &&
                            fetch(projectKey).body.Some?
    ensures r.Success? ==> r.value == ProjectFromJson(fetch(projectKey).body.value)
  {
    var response := fetch(projectKey);
    if response.Response? && response.status == StatusOk && response.body.Some? {
      var project := MapJsonToProject(response.body.value);
      r := Success(project);
    } else {
      r := Failure(RuntimeFailure);
    }
  }

  // ---------------------------------------------------------------------------------------------
  // Searching projects

  /** The lowercase form of an attribute that is non-null contains the needle. */
  predicate AttributeMatches(attribute: Option<string>, needle: string) {
    attribute.Some? && JavaStrings.Contains(JavaStrings.ToLower(attribute.value), needle)
  }

  /**
   * The filter of `searchProjects`: the needle occurs in the name, the key or the description.
   * The contract only defines the filter; `SearchProjectsKeepsExactlyMatches` is what it serves.
   */
  predicate ProjectMatches(project: Project, needle: string): (b: bool)
    ensures b <==> exists attribute | attribute in [project.name, project.key, project.description] ::
                     attribute.Some? && JavaStrings.Contains(JavaStrings.ToLower(attribute.value), needle)
  {
    || AttributeMatches(project.name, needle)
    || AttributeMatches(project.key, needle)
    || AttributeMatches(project.description, needle)
  }

  /** The needle `searchProjects` looks for: the term lowercased, then trimmed. */
  function Needle(searchTerm: string): (needle: string)
    ensures |needle| <= |searchTerm|
    ensures needle == [] <==> JavaStrings.IsBlank(searchTerm)
    ensures forall i | 0 <= i < |needle| :: !('A' <= needle[i] <= 'Z')
  {
    var lower := JavaStrings.ToLower(searchTerm);
    JavaStrings.TrimEmptyIffBlank(lower);
    JavaStrings.ToLowerKeepsBlank(searchTerm);
    JavaStrings.TrimKeepsNoUpper(lower);
    JavaStrings.Trim(lower)
  }

  /**
   * `searchProjects(searchTerm)`, given what its call of `getAllProjects()` produced: the whole
   * list for a null or blank term, otherwise the projects that match the needle.
   */
  function SearchProjects(searchTerm: Option<string>, allProjects: Result<seq<Project>, ServiceError>)
    : (r: Result<seq<Project>, ServiceError>)
    ensures (searchTerm.None? || JavaStrings.IsBlank(searchTerm.value)) ==> r == allProjects
    ensures allProjects.Failure? ==> r == allProjects
    ensures r.Success? ==> allProjects.Success? && Sequences.IsSubsequence(r.value, allProjects.value)
  {
    match allProjects
    case Failure(_) => allProjects
    case Success(all) =>
      if searchTerm.None? then
        Sequences.IsSubsequenceReflexive(all);
        allProjects
      else
        JavaStrings.TrimEmptyIffBlank(searchTerm.value);
        if JavaStrings.Trim(searchTerm.value) == [] then
          Sequences.IsSubsequenceReflexive(all);
          allProjects
        else
          var needle := Needle(searchTerm.value);
          Sequences.FilterIsSubsequence(all, p => ProjectMatches(p, needle));
          Success(Sequences.Filter(all, p => ProjectMatches(p, needle)))
  }

  /**
   * For a non-blank term, a project is in the result iff it is in the list and matches the
   * needle, and a matching project is kept as often as the list holds it.
   */
  lemma SearchProjectsKeepsExactlyMatches(searchTerm: string, all: seq<Project>, project: Project)
    requires !JavaStrings.IsBlank(searchTerm)
    ensures SearchProjects(Some(searchTerm), Success(all)).Success?
    ensures project in SearchProjects(Some(searchTerm), Success(all)).value <==>
              project in all && ProjectMatches(project, Needle(searchTerm))
    ensures multiset(SearchProjects(Some(searchTerm), Success(all)).value)[project] ==
              if ProjectMatches(project, Needle(searchTerm)) then multiset(all)[project] else 0
  {
    JavaStrings.TrimEmptyIffBlank(searchTerm);
    Sequences.FilterMembership(all, p => ProjectMatches(p, Needle(searchTerm)), project);
    Sequences.FilterCount(all, p => ProjectMatches(p, Needle(searchTerm)), project);
  }
}
