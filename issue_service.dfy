/**
 * `IssueService`: turning Jira issue payloads into `Issue` records, and the JQL searches built on
 * top of Jira's `/rest/api/2/search` resource.
 */
module IssueService {
  import opened Wrappers
  import opened JsonTree
  import opened IssueEntity
  import opened JiraHttp
  import JavaStrings

  // ---------------------------------------------------------------------------------------------
  // Decoding one issue

  /**
   * Reference decoder: every attribute is the text found at its Jira path, null when a step of
   * the path is missing or the leaf is JSON null.
   */
  function IssueFromJson(node: JsonNode): Issue {
    Issue(
      id := TextAt(node, ["id"]),
      key := TextAt(node, ["key"]),
      summary := TextAt(node, ["fields", "summary"]),
      description := TextAt(node, ["fields", "description"]),
      status := TextAt(node, ["fields", "status", "name"]),
      priority := TextAt(node, ["fields", "priority", "name"]),
      issueType := TextAt(node, ["fields", "issuetype", "name"]),
      assignee := TextAt(node, ["fields", "assignee", "displayName"]),
      reporter := TextAt(node, ["fields", "reporter", "displayName"]),
      projectKey := TextAt(node, ["fields", "project", "key"]),
      projectName := TextAt(node, ["fields", "project", "name"]),
      created := TextAt(node, ["fields", "created"]),
      updated := TextAt(node, ["fields", "updated"]),
      resolution := TextAt(node, ["fields", "resolution", "name"]))
  }

  /** Reading `[name] + rest` is reading `name`, then `rest` inside it. */
  lemma TextAtStep(node: JsonNode, name: string, rest: seq<string>)
    ensures TextAt(node, [name] + rest) ==
            match Get(node, name) case None => None case Some(child) => TextAt(child, rest)
  {
    assert ([name] + rest)[0] == name && ([name] + rest)[1..] == rest;
  }

  /** Reading `fields.<name>` when `fields` is `f`: `getJsonString(f, name)`. */
  lemma TextUnderFields(node: JsonNode, f: JsonNode, name: string)
    requires Get(node, "fields") == Some(f)
    ensures TextAt(node, ["fields", name]) == GetJsonString(f, name)
  {
    TextAtStep(node, "fields", [name]);
    assert ["fields", name] == ["fields"] + [name];
    TextAtSingleMember(f, name);
  }

  /** Reading `fields.<parent>.<leaf>`: null without the parent, else `getJsonString(parent, leaf)`. */
  lemma NestedTextUnderFields(node: JsonNode, f: JsonNode, parent: string, leaf: string)
    requires Get(node, "fields") == Some(f)
    ensures Get(f, parent).None? ==> TextAt(node, ["fields", parent, leaf]) == None
    ensures Get(f, parent).Some? ==>
              TextAt(node, ["fields", parent, leaf]) == GetJsonString(Get(f, parent).value, leaf)
  {
    TextAtStep(node, "fields", [parent, leaf]);
    assert ["fields", parent, leaf] == ["fields"] + [parent, leaf];
    TextAtStep(f, parent, [leaf]);
    assert [parent, leaf] == [parent] + [leaf];
    if Get(f, parent).Some? { TextAtSingleMember(Get(f, parent).value, leaf); }
  }

  /** Without a `fields` member, nothing below `fields` can be read. */
  lemma NothingWithoutFields(node: JsonNode, rest: seq<string>)
    requires Get(node, "fields").None?
    ensures TextAt(node, ["fields"] + rest) == None
  {
    TextAtStep(node, "fields", rest);
  }

  /** Without `fields`, only `id` and `key` are read; every other attribute stays null. */
  lemma IssueWithoutFields(node: JsonNode)
    requires Get(node, "fields").None?
    ensures IssueFromJson(node) ==
            EmptyIssue().(id := GetJsonString(node, "id"), key := GetJsonString(node, "key"))
  {
    TextAtSingleMember(node, "id");
    TextAtSingleMember(node, "key");
    NothingWithoutFields(node, ["summary"]);
    NothingWithoutFields(node, ["description"]);
    NothingWithoutFields(node, ["status", "name"]);
    NothingWithoutFields(node, ["priority", "name"]);
    NothingWithoutFields(node, ["issuetype", "name"]);
    NothingWithoutFields(node, ["assignee", "displayName"]);
    NothingWithoutFields(node, ["reporter", "displayName"]);
    NothingWithoutFields(node, ["project", "key"]);
    NothingWithoutFields(node, ["project", "name"]);
    NothingWithoutFields(node, ["created"]);
    NothingWithoutFields(node, ["updated"]);
    NothingWithoutFields(node, ["resolution", "name"]);
  }

  /** `getJsonString(parent, leaf)` of an optional parent, null when the parent is missing. */
  function ChildText(parent: Option<JsonNode>, leaf: string): Option<string> {
    if parent.Some? then GetJsonString(parent.value, leaf) else None
  }

  /**
   * The issue decoded from `node` whose `fields` member is `f`: `id` and `key` from the top
   * level, `summary`, `description`, `created` and `updated` from `f`, and each nested attribute
   * from the named member of its parent object inside `f`, null when that parent is missing.
   */
  function IssueFromFields(node: JsonNode, f: JsonNode): Issue {
    Issue(
      id := GetJsonString(node, "id"),
      key := GetJsonString(node, "key"),
      summary := GetJsonString(f, "summary"),
      description := GetJsonString(f, "description"),
      status := ChildText(Get(f, "status"), "name"),
      priority := ChildText(Get(f, "priority"), "name"),
      issueType := ChildText(Get(f, "issuetype"), "name"),
      assignee := ChildText(Get(f, "assignee"), "displayName"),
      reporter := ChildText(Get(f, "reporter"), "displayName"),
      projectKey := ChildText(Get(f, "project"), "key"),
      projectName := ChildText(Get(f, "project"), "name"),
      created := GetJsonString(f, "created"),
      updated := GetJsonString(f, "updated"),
      resolution := ChildText(Get(f, "resolution"), "name"))
  }

  /** With `fields` present as `f`, the path-based decoding reads every attribute from `f`'s members. */
  lemma IssueWithFields(node: JsonNode, f: JsonNode)
    requires Get(node, "fields") == Some(f)
    ensures IssueFromJson(node) == IssueFromFields(node, f)
  {
    TextAtSingleMember(node, "id");
    TextAtSingleMember(node, "key");
    TextUnderFields(node, f, "summary");
    TextUnderFields(node, f, "description");
    TextUnderFields(node, f, "created");
    TextUnderFields(node, f, "updated");
    NestedTextUnderFields(node, f, "status", "name");
    NestedTextUnderFields(node, f, "priority", "name");
    NestedTextUnderFields(node, f, "issuetype", "name");
    NestedTextUnderFields(node, f, "assignee", "displayName");
    NestedTextUnderFields(node, f, "reporter", "displayName");
    NestedTextUnderFields(node, f, "project", "key");
    NestedTextUnderFields(node, f, "project", "name");
    NestedTextUnderFields(node, f, "resolution", "name");
  }

  /**
   * `mapJsonToIssue`: a fresh issue filled by setter calls, each nested one guarded by a null
   * check of its parent. It computes the reference decoding.
   */
  method MapJsonToIssue(jsonIssue: JsonNode) returns (issue: Issue)
    ensures issue == IssueFromJson(jsonIssue)
  {
    issue := EmptyIssue();
    issue := issue.(id := GetJsonString(jsonIssue, "id"));
    issue := issue.(key := GetJsonString(jsonIssue, "key"));

    var fields := Get(jsonIssue, "fields");
    if fields.Some? {
      var f := fields.value;
      issue := issue.(summary := GetJsonString(f, "summary"));
      issue := issue.(description := GetJsonString(f, "description"));

      var status := Get(f, "status");
      if status.Some? {
        issue := issue.(status := GetJsonString(status.value, "name"));
      }
      var priority := Get(f, "priority");
      if priority.Some? {
        issue := issue.(priority := GetJsonString(priority.value, "name"));
      }
      var issueType := Get(f, "issuetype");
      if issueType.Some? {
        issue := issue.(issueType := GetJsonString(issueType.value, "name"));
      }
      var assignee := Get(f, "assignee");
      if assignee.Some? && !assignee.value.JNull? {
        issue := issue.(assignee := GetJsonString(assignee.value, "displayName"));
      }
      var reporter := Get(f, "reporter");
      if reporter.Some? {
        issue := issue.(reporter := GetJsonString(reporter.value, "displayName"));
      }
      var project := Get(f, "project");
      if project.Some? {
        issue := issue.(projectKey := GetJsonString(project.value, "key"));
        issue := issue.(projectName := GetJsonString(project.value, "name"));
      }
      issue := issue.(created := GetJsonString(f, "created"));
      issue := issue.(updated := GetJsonString(f, "updated"));

      var resolution := Get(f, "resolution");
      if resolution.Some? && !resolution.value.JNull? {
        issue := issue.(resolution := GetJsonString(resolution.value, "name"));
      }
      assert issue == IssueFromFields(jsonIssue, f);
      IssueWithFields(jsonIssue, f);
    } else {
      IssueWithoutFields(jsonIssue);
    }
  }

  /** An assignee or resolution that is present but JSON null leaves the attribute null. */
  lemma NullAssigneeAndResolution(node: JsonNode, f: JsonNode)
    requires Get(node, "fields") == Some(f)
    ensures Get(f, "assignee") == Some(JNull) ==> IssueFromJson(node).assignee == None
    ensures Get(f, "resolution") == Some(JNull) ==> IssueFromJson(node).resolution == None
  {
    IssueWithFields(node, f);
  }

  // ---------------------------------------------------------------------------------------------
  // Decoding a search response

  /** The `issues` array of a search response; nothing when it is missing or not an array. */
  function IssueArray(jsonResponse: JsonNode): (elems: seq<JsonNode>)
    ensures Get(jsonResponse, "issues").None? ==> elems == []
    ensures Get(jsonResponse, "issues").Some? && !Get(jsonResponse, "issues").value.JArray? ==> elems == []
    ensures Get(jsonResponse, "issues").Some? && Get(jsonResponse, "issues").value.JArray? ==>
              elems == Get(jsonResponse, "issues").value.elems
  {
    match Get(jsonResponse, "issues")
    case Some(JArray(es)) => es
    case _ => []
  }

  /** Reference decoding of a search response: one issue per element of `issues`, in order. */
  function IssuesFromSearch(jsonResponse: JsonNode): seq<Issue> {
    var elems := IssueArray(jsonResponse);
    seq(|elems|, i requires 0 <= i < |elems| => IssueFromJson(elems[i]))
  }

  /** The loop of `getAllIssues` and `searchIssuesByJQL` that appends one mapped issue per element. */
  method DecodeSearchResponse(jsonResponse: JsonNode) returns (issues: seq<Issue>)
    ensures |issues| == |IssueArray(jsonResponse)|
    ensures forall i | 0 <= i < |issues| :: issues[i] == IssueFromJson(IssueArray(jsonResponse)[i])
  {
    issues := [];
    var issuesArray := Get(jsonResponse, "issues");
    if issuesArray.Some? && issuesArray.value.JArray? {
      var elems := issuesArray.value.elems;
      for k := 0 to |elems|
        invariant |issues| == k
        invariant forall i | 0 <= i < k :: issues[i] == IssueFromJson(elems[i])
      {
        var issue := MapJsonToIssue(elems[k]);
        issues := issues + [issue];
      }
    }
  }

  // ---------------------------------------------------------------------------------------------
  // Searches

  /**
   * The search request sent to `/rest/api/2/search`: a page of all issues (`startAt`,
   * `maxResults`), or a JQL query, URL-encoded into the request with `maxResults=100`.
   */
  datatype SearchQuery = Page(startAt: int, maxResults: int) | Jql(jql: string, maxResults: int)

  /** The page `getAllIssues()` asks for: the first 50 issues. */
  const DefaultPage := Page(0, 50)

  /** The page size of every JQL search. */
  const JqlMaxResults := 100

  const OrderByCreated := " ORDER BY created DESC"
  const OrderByUpdated := " ORDER BY updated DESC"
  /** The closing quote of a quoted JQL value, then the ordering. */
  const QuoteOrderByUpdated := "\" ORDER BY updated DESC"

  /** The issue list `getAllIssues` / `searchIssuesByJQL` return for one HTTP outcome. */
  function IssuesFromOutcome(response: HttpOutcome): Result<seq<Issue>, ServiceError> {
    match response
    case Thrown => Failure(RuntimeFailure)
    case Response(status, body) =>
      if status != StatusOk then Success([])
      else if body.None? then Failure(RuntimeFailure)
      else Success(IssuesFromSearch(body.value))
  }

  /** Exchange failures surface as the service's exception; any status but 200 gives an empty list. */
  lemma OutcomeCases(response: HttpOutcome)
    ensures response.Thrown? ==> IssuesFromOutcome(response) == Failure(RuntimeFailure)
    ensures response.Response? && response.status != StatusOk ==> IssuesFromOutcome(response) == Success([])
    ensures response.Response? && response.status == StatusOk && response.body.Some? ==>
              IssuesFromOutcome(response).Success? &&
              |IssuesFromOutcome(response).value| == |IssueArray(response.body.value)|
  {
  }

  /** A search whose issues all belong to project `k` decodes to issues that all carry key `k`. */
  lemma SearchKeepsProjectKey(body: JsonNode, k: string)
    requires forall i | 0 <= i < |IssueArray(body)| ::
               TextAt(IssueArray(body)[i], ["fields", "project", "key"]) == Some(k)
    ensures var r := IssuesFromOutcome(Response(StatusOk, Some(body)));
      && r.Success? && |r.value| == |IssueArray(body)|
      && forall i | 0 <= i < |r.value| :: r.value[i].projectKey == Some(k)
  {
  }

  /** The issue `key` of project DEMO with no assignee, as Jira sends it. */
  function DemoIssue(key: string): JsonNode {
    JObject([("key", JString(key)), ("fields", JObject([("project", JObject([("key", JString("DEMO"))]))]))])
  }

  /** A DEMO issue decodes with its own key, project key "DEMO" and no assignee. */
  lemma DemoIssueDecodes(key: string)
    ensures IssueFromJson(DemoIssue(key)).key == Some(key)
    ensures IssueFromJson(DemoIssue(key)).projectKey == Some("DEMO")
    ensures IssueFromJson(DemoIssue(key)).assignee == None
  {
    var project := JObject([("key", JString("DEMO"))]);
    var fields := JObject([("project", project)]);
    var node := DemoIssue(key);
    assert "key"[0] != "fields"[0] && "project"[0] != "assignee"[0];
    assert Lookup(node.members[1..], "fields") == Some(fields);
    assert Get(node, "fields") == Some(fields);
    assert Get(fields, "project") == Some(project) && Get(fields, "assignee") == None;
    assert GetJsonString(project, "key") == Some("DEMO");
    IssueWithFields(node, fields);
  }

  /**
   * Two issues of project DEMO, neither with an assignee: the search gives exactly two issues,
   * in order, each with project key "DEMO" and no assignee.
   */
  lemma TwoDemoIssues()
    ensures var r := IssuesFromOutcome(Response(StatusOk, Some(JObject([("issues", JArray([DemoIssue("DEMO-1"), DemoIssue("DEMO-2")]))]))));
      && r.Success? && |r.value| == 2
      && r.value[0].key == Some("DEMO-1") && r.value[1].key == Some("DEMO-2")
      && r.value[0].projectKey == Some("DEMO") && r.value[1].projectKey == Some("DEMO")
      && r.value[0].assignee == None && r.value[1].assignee == None
  {
    var body := JObject([("issues", JArray([DemoIssue("DEMO-1"), DemoIssue("DEMO-2")]))]);
    assert IssueArray(body) == [DemoIssue("DEMO-1"), DemoIssue("DEMO-2")];
    DemoIssueDecodes("DEMO-1");
    DemoIssueDecodes("DEMO-2");
  }

  /** The steps of both searches after the exchange: status check, readTree, decoding loop. */
  method ReadSearchResponse(response: HttpOutcome) returns (r: Result<seq<Issue>, ServiceError>)
    ensures r == IssuesFromOutcome(response)
  {
    if response.Thrown? {
      return Failure(RuntimeFailure);
    }
    if response.status == StatusOk {
      if response.body.None? {
        return Failure(RuntimeFailure);
      }
      var issues := DecodeSearchResponse(response.body.value);
      assert issues == IssuesFromSearch(response.body.value);
      r := Success(issues);
    } else {
      r := Success([]);
    }
  }

  /** `getAllIssues(startAt, maxResults)`, with the HTTP exchange given as `fetch`. */
  method GetAllIssues(startAt: int, maxResults: int, fetch: SearchQuery -> HttpOutcome)
    returns (r: Result<seq<Issue>, ServiceError>)
    ensures r == IssuesFromOutcome(fetch(Page(startAt, maxResults)))
  {
    r := ReadSearchResponse(fetch(Page(startAt, maxResults)));
  }

  /** `searchIssuesByJQL(jql)`: the query goes out with a page size of 100. */
  method SearchIssuesByJql(jql: string, fetch: SearchQuery -> HttpOutcome)
    returns (r: Result<seq<Issue>, ServiceError>)
    ensures r == IssuesFromOutcome(fetch(Jql(jql, JqlMaxResults)))
  {
    r := ReadSearchResponse(fetch(Jql(jql, JqlMaxResults)));
  }

  /** The JQL of `getIssuesByProject`: `project = <key> ORDER BY created DESC`. */
  function ProjectJql(projectKey: string): (jql: string)
    ensures JavaStrings.Unenclose(jql, "project = ", OrderByCreated) == Some(projectKey)
  {
    JavaStrings.UnencloseEnclose("project = ", projectKey, OrderByCreated);
    "project = " + projectKey + OrderByCreated
  }

  /** The JQL of `getIssuesByAssignee`: `assignee = <user> ORDER BY updated DESC`. */
  function AssigneeJql(assigneeUsername: string): (jql: string)
    ensures JavaStrings.Unenclose(jql, "assignee = ", OrderByUpdated) == Some(assigneeUsername)
  {
    JavaStrings.UnencloseEnclose("assignee = ", assigneeUsername, OrderByUpdated);
    "assignee = " + assigneeUsername + OrderByUpdated
  }

  /** The JQL of `getIssuesByStatus`: the status wrapped in double quotes. */
  function StatusJql(status: string): (jql: string)
    ensures JavaStrings.Unenclose(jql, "status = \"", QuoteOrderByUpdated) == Some(status)
  {
    JavaStrings.UnencloseEnclose("status = \"", status, QuoteOrderByUpdated);
    "status = \"" + status + QuoteOrderByUpdated
  }

  /** The JQL of the free-text search: `text ~ "<term>" ORDER BY updated DESC`. */
  function TextJql(searchTerm: string): (jql: string)
    ensures JavaStrings.Unenclose(jql, "text ~ \"", QuoteOrderByUpdated) == Some(searchTerm)
  {
    JavaStrings.UnencloseEnclose("text ~ \"", searchTerm, QuoteOrderByUpdated);
    "text ~ \"" + searchTerm + QuoteOrderByUpdated
  }

  /** Distinct keys, users, statuses or terms never produce the same query. */
  lemma JqlBuildersInjective(a: string, b: string)
    ensures ProjectJql(a) == ProjectJql(b) ==> a == b
    ensures AssigneeJql(a) == AssigneeJql(b) ==> a == b
    ensures StatusJql(a) == StatusJql(b) ==> a == b
    ensures TextJql(a) == TextJql(b) ==> a == b
  {
  }

  /**
   * What `searchIssues(term)` asks Jira for: the default page when the term is null or
   * whitespace only, else a free-text JQL query.
   */
  function SearchIssuesQuery(searchTerm: Option<string>): (q: SearchQuery)
    ensures (searchTerm.None? || JavaStrings.IsBlank(searchTerm.value)) ==> q == DefaultPage
    ensures searchTerm.Some? && !JavaStrings.IsBlank(searchTerm.value) ==>
              q.Jql? && q.maxResults == JqlMaxResults &&
              JavaStrings.Unenclose(q.jql, "text ~ \"", QuoteOrderByUpdated) == searchTerm
  {
    if searchTerm.None? then DefaultPage
    else
      JavaStrings.TrimEmptyIffBlank(searchTerm.value);
      if JavaStrings.Trim(searchTerm.value) == [] then DefaultPage
      else Jql(TextJql(searchTerm.value), JqlMaxResults)
  }

  /** `getIssuesByProject(projectKey)`. */
  method GetIssuesByProject(projectKey: string, fetch: SearchQuery -> HttpOutcome)
    returns (r: Result<seq<Issue>, ServiceError>)
    ensures r == IssuesFromOutcome(fetch(Jql(ProjectJql(projectKey), JqlMaxResults)))
  {
    r := SearchIssuesByJql(ProjectJql(projectKey), fetch);
  }

  /** `getIssuesByAssignee(assigneeUsername)`. */
  method GetIssuesByAssignee(assigneeUsername: string, fetch: SearchQuery -> HttpOutcome)
    returns (r: Result<seq<Issue>, ServiceError>)
    ensures r == IssuesFromOutcome(fetch(Jql(AssigneeJql(assigneeUsername), JqlMaxResults)))
  {
    r := SearchIssuesByJql(AssigneeJql(assigneeUsername), fetch);
  }

  /** `getIssuesByStatus(status)`. */
  method GetIssuesByStatus(status: string, fetch: SearchQuery -> HttpOutcome)
    returns (r: Result<seq<Issue>, ServiceError>)
    ensures r == IssuesFromOutcome(fetch(Jql(StatusJql(status), JqlMaxResults)))
  {
    r := SearchIssuesByJql(StatusJql(status), fetch);
  }

  /** `searchIssues(searchTerm)`: a blank term falls back to `getAllIssues(0, 50)`. */
  method SearchIssues(searchTerm: Option<string>, fetch: SearchQuery -> HttpOutcome)
    returns (r: Result<seq<Issue>, ServiceError>)
    ensures r == IssuesFromOutcome(fetch(SearchIssuesQuery(searchTerm)))
  {
    if searchTerm.None? || JavaStrings.Trim(searchTerm.value) == [] {
      r := GetAllIssues(0, 50, fetch);
    } else {
      r := SearchIssuesByJql(TextJql(searchTerm.value), fetch);
    }
  }

  /** `getIssueDetails(issueKey)`: status 200 maps the body; any other outcome throws. */
  method GetIssueDetails(issueKey: string, fetch: string -> HttpOutcome)
    returns (r: Result<Issue, ServiceError>)
    ensures r.Success? <==> fetch(issueKey).Response? && fetch(issueKey).status == StatusOk &&
                            fetch(issueKey).body.Some?
    ensures r.Success? ==> r.value == IssueFromJson(fetch(issueKey).body.value)
  {
    var response := fetch(issueKey);
    if response.Response? && response.status == StatusOk && response.body.Some? {
      var issue := MapJsonToIssue(response.body.value);
      r := Success(issue);
    } else {
      r := Failure(RuntimeFailure);
    }
  }
}
