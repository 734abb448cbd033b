# Jira gateway: a Dafny model of its decoding, search and account logic

This Spring Boot application fronts a Jira server. It reads issues and projects through Jira's
REST API and maps the JSON payloads onto two simplified records, `Issue` and `Project`. It also
builds JQL queries, filters projects by a search term, and copies users between a local user
table and a Jira-user mirror table. Local sign-up checks that the email is not yet registered before it saves the new user. Logins are delegated
to Jira and then given a fixed `ROLE_USER` authority.

The model keeps the application's own structure:

- `json_tree.dfy` (`JsonTree`) is the part of Jackson's `JsonNode` that the mappers read:
  - `get`, `has` and `asText`;
  - `for`-iteration over a node;
  - `getJsonString`, which is the same helper in `IssueService` and `ProjectService`.

  Object members keep their document order. Jackson never builds an object with two members of
  the same name (its objects are `LinkedHashMap`s); such objects satisfy `DistinctNames`, and on
  them `get(name)` is simply the member called `name`.
- `issue.dfy` and `project.dfy` are the two records as datatypes, with their constructors and
  utility predicates. A setter `setX(v)` is the datatype update `r.(x := v)`, which changes only
  `x` by construction.
- `issue_service.dfy` covers `IssueService`:
  - a path-based reference decoder, `IssueFromJson`;
  - the setter-by-setter `MapJsonToIssue`, proved equal to the reference decoder;
  - the loop that decodes a search response;
  - the four JQL builders and the searches built on them.

  The HTTP exchange is a parameter, `fetch`, from the query sent to the outcome received.
- `project_service.dfy` covers `ProjectService`:
  - the reference decoder `ProjectFromJson` and `MapJsonToProject`;
  - the list-decoding loop;
  - `getProjectDetails`;
  - `searchProjects`, an order-preserving filter.
- `repositories.dfy` holds the two tables as classes whose `rows` sequence `save` appends to.
  Ids come from an identity column, `nextId`.
- `user_sync_service.dfy` and `auth_service.dfy` are the two batch copies and sign-up, as
  methods over those tables.
- `jira_user_details.dfy` and `jira_authentication.dfy` are the login decision logic. The Jira
  lookups, credential validation and the details service are function parameters.
- `wrappers.dfy`, `sequences.dfy`, `java_strings.dfy` and `jira_http.dfy` are shared helpers:
  - nullable values and exceptions as `Option` and `Result`;
  - order-preserving filtering;
  - `trim`, `toLowerCase` and `contains`;
  - the HTTP outcome.

An HTTP exchange ends in one of three ways. A response with status 200 is decoded. A response
with any other status gives an empty list, or the exception for the single-record lookups. A
thrown exchange, or a body that `readTree` cannot parse, gives the service's `RuntimeException`,
modelled as `Failure(RuntimeFailure)`.

## Model

| member | source | states |
|---|---|---|
| JsonTree.LookupFindsFirst | src/main/java/com/example/test1/services/jira/IssueService.java:308 | `get(name)` on an object is null exactly when no member has that name; otherwise it is the value of a member with that name (the first, which on a Jackson object is the only one) |
| JsonTree.LookupDistinct | src/main/java/com/example/test1/services/jira/IssueService.java:308 | on an object with distinct member names, `get(name)` is `v` exactly when `(name, v)` is one of its members |
| JsonTree.GetJsonString | src/main/java/com/example/test1/services/jira/IssueService.java:307-310 | null exactly when the member is absent or JSON null, else the member's `asText()`; a string member gives its contents (the identical helper is at ProjectService.java:187-190) |
| JsonTree.Elements | src/main/java/com/example/test1/services/jira/ProjectService.java:60 | iterating a node visits an array's elements, or an object's member values in order, or nothing for a scalar |
| JsonTree.TextAtSingleMember | src/main/java/com/example/test1/services/jira/IssueService.java:307-310 | reading a one-member path is exactly `getJsonString` |
| JavaStrings.TrimEmptyIffBlank | src/main/java/com/example/test1/entities/jira/Issue.java:167 | `s.trim().isEmpty()` holds iff every character of `s` is at most U+0020 |
| JavaStrings.NonBlank | src/main/java/com/example/test1/entities/jira/Issue.java:167 | `s != null && !s.trim().isEmpty()` iff `s` is present and holds a character above U+0020 |
| JavaStrings.ToLower | src/main/java/com/example/test1/services/jira/ProjectService.java:117 | same length, each character lowercased |
| JavaStrings.UnencloseEnclose | src/main/java/com/example/test1/services/jira/IssueService.java:135 | a string built as prefix + x + suffix gives back exactly x, so the built query determines its argument |
| IssueEntity.Issue.HasDescription | src/main/java/com/example/test1/entities/jira/Issue.java:166-168 | true iff description is non-null and has a non-whitespace character |
| IssueEntity.Issue.IsAssigned | src/main/java/com/example/test1/entities/jira/Issue.java:170-172 | true iff assignee is non-null and non-blank |
| IssueEntity.Issue.IsResolved | src/main/java/com/example/test1/entities/jira/Issue.java:174-176 | true iff resolution is non-null and non-blank |
| IssueEntity.Issue.DisplayName | src/main/java/com/example/test1/entities/jira/Issue.java:178-180 | the summary whenever it is non-null, even if empty, else the key |
| IssueEntity.EmptyIssue | src/main/java/com/example/test1/entities/jira/Issue.java:36 | `new Issue()` has no description, no assignee, no resolution and a null display name |
| IssueEntity.NewIssue | src/main/java/com/example/test1/entities/jira/Issue.java:38-42 | id, key and summary are set and every other attribute equals that of `new Issue()` (null) |
| IssueEntity.NewIssueDisplay | src/main/java/com/example/test1/entities/jira/Issue.java:166-180 | an issue built with a summary displays that summary and is neither assigned, resolved nor described |
| ProjectEntity.Project.HasDescription | src/main/java/com/example/test1/entities/jira/Project.java:101-103 | true iff description is non-null and non-blank |
| ProjectEntity.Project.HasCategory | src/main/java/com/example/test1/entities/jira/Project.java:105-107 | true iff categoryName is non-null and non-blank |
| ProjectEntity.Project.HasLead | src/main/java/com/example/test1/entities/jira/Project.java:109-111 | true iff leadName is non-null and non-blank |
| ProjectEntity.Project.DisplayName | src/main/java/com/example/test1/entities/jira/Project.java:113-115 | the name when it is non-null, else the key |
| ProjectEntity.EmptyProject | src/main/java/com/example/test1/entities/jira/Project.java:27 | `new Project()` has no description, no category, no lead and a null display name |
| ProjectEntity.NewProject | src/main/java/com/example/test1/entities/jira/Project.java:29-33 | id, key and name are set and description, url, avatarUrl, categoryName and leadName are null |
| ProjectEntity.NewProjectHasNoDetails | src/main/java/com/example/test1/entities/jira/Project.java:101-115 | a freshly constructed project has no description, category or lead, and displays its name or else its key |
| IssueService.IssueWithoutFields | src/main/java/com/example/test1/services/jira/IssueService.java:240-301 | without a `fields` member only `id` and `key` are read from the top level; every other attribute stays null |
| IssueService.IssueWithFields | src/main/java/com/example/test1/services/jira/IssueService.java:243-298 | with `fields` present, the path-based decoding equals `IssueFromFields`: `id`/`key` from the top level, summary, description, created and updated from `fields`, status, priority, issueType and resolution from `.name`, assignee and reporter from `.displayName`, projectKey/projectName from `project.key`/`project.name`, each null when its parent is missing |
| IssueService.NothingWithoutFields | src/main/java/com/example/test1/services/jira/IssueService.java:247-248 | no path below a missing `fields` member yields any text |
| IssueService.MapJsonToIssue | src/main/java/com/example/test1/services/jira/IssueService.java:239-302 | the setter sequence with its null checks computes exactly the reference decoding `IssueFromJson` |
| IssueService.NullAssigneeAndResolution | src/main/java/com/example/test1/services/jira/IssueService.java:272-298 | an assignee or resolution that is present but JSON null leaves the attribute null |
| IssueService.IssueArray | src/main/java/com/example/test1/services/jira/IssueService.java:71-74 | the elements of `issues` when it is an array; nothing when it is missing or not an array |
| IssueService.DecodeSearchResponse | src/main/java/com/example/test1/services/jira/IssueService.java:70-79 | exactly one decoded issue per element of `issues`, in array order (the same loop is at 193-202) |
| IssueService.ReadSearchResponse | src/main/java/com/example/test1/services/jira/IssueService.java:192-214 | the result is `IssuesFromOutcome` of the exchange: non-200 gives an empty list, a thrown or unparseable exchange the service exception |
| IssueService.OutcomeCases | src/main/java/com/example/test1/services/jira/IssueService.java:69-91 | a thrown exchange fails, a non-200 status gives an empty list, a 200 gives one issue per array element |
| IssueService.SearchKeepsProjectKey | src/main/java/com/example/test1/services/jira/IssueService.java:193-202 | when every element of `issues` carries project key k, every decoded issue does, and there are as many |
| IssueService.DemoIssueDecodes | src/main/java/com/example/test1/services/jira/IssueService.java:243-287 | an issue with a key and a project but no assignee decodes with that key, the project's key and a null assignee |
| IssueService.TwoDemoIssues | src/main/java/com/example/test1/services/jira/IssueService.java:193-202 | a two-issue response decodes to two issues in order, with their keys, project key and no assignee |
| IssueService.GetAllIssues | src/main/java/com/example/test1/services/jira/IssueService.java:52-92 | the page (startAt, maxResults) is requested and its outcome decoded |
| IssueService.SearchIssuesByJql | src/main/java/com/example/test1/services/jira/IssueService.java:176-215 | the JQL is requested with a page size of 100 and the outcome decoded |
| IssueService.ProjectJql | src/main/java/com/example/test1/services/jira/IssueService.java:135 | the query is `project = ` + key + ` ORDER BY created DESC`, from which the key reads back |
| IssueService.AssigneeJql | src/main/java/com/example/test1/services/jira/IssueService.java:150 | the query is `assignee = ` + user + ` ORDER BY updated DESC`, from which the user reads back |
| IssueService.StatusJql | src/main/java/com/example/test1/services/jira/IssueService.java:165 | the query is `status = "` + status + `" ORDER BY updated DESC`, the status in double quotes |
| IssueService.TextJql | src/main/java/com/example/test1/services/jira/IssueService.java:228 | the query is `text ~ "` + term + `" ORDER BY updated DESC` |
| IssueService.JqlBuildersInjective | src/main/java/com/example/test1/services/jira/IssueService.java:131-234 | different keys, users, statuses or terms never give the same query |
| IssueService.SearchIssuesQuery | src/main/java/com/example/test1/services/jira/IssueService.java:220-229 | a null or whitespace-only term asks for the default page (0, 50); any other term asks for the free-text JQL with 100 results, whose quoted part is the term |
| IssueService.GetIssuesByProject | src/main/java/com/example/test1/services/jira/IssueService.java:131-141 | the project query is searched |
| IssueService.GetIssuesByAssignee | src/main/java/com/example/test1/services/jira/IssueService.java:146-156 | the assignee query is searched |
| IssueService.GetIssuesByStatus | src/main/java/com/example/test1/services/jira/IssueService.java:161-171 | the status query is searched |
| IssueService.SearchIssues | src/main/java/com/example/test1/services/jira/IssueService.java:220-234 | the outcome of the query chosen by `SearchIssuesQuery` is decoded |
| IssueService.GetIssueDetails | src/main/java/com/example/test1/services/jira/IssueService.java:97-126 | succeeds iff the exchange answers 200 with a parseable body; the issue is then the reference decoding of that body |
| ProjectService.RawTextAtNested | src/main/java/com/example/test1/services/jira/ProjectService.java:163-172 | reading `parent.leaf` through `has`: null when the parent or the leaf is missing, else the leaf's `asText()` |
| ProjectService.ProjectAttributes | src/main/java/com/example/test1/services/jira/ProjectService.java:156-182 | id, key, name and description from the same-named members and url from `self`; avatarUrl is `avatarUrls["48x48"]`, categoryName is `projectCategory.name`, both null when absent; leadName prefers `lead.displayName`, then `lead.name`, else null |
| ProjectService.MapJsonToProject | src/main/java/com/example/test1/services/jira/ProjectService.java:153-185 | the setter sequence computes exactly the reference decoding `ProjectFromJson` |
| ProjectService.NullAvatarEntryReadsAsText | src/main/java/com/example/test1/services/jira/ProjectService.java:163-166 | a JSON-null `48x48` entry is read as the text "null", not as null |
| ProjectService.DecodeProjectList | src/main/java/com/example/test1/services/jira/ProjectService.java:57-63 | one decoded project per element visited, in order |
| ProjectService.ObjectBodyYieldsItsValues | src/main/java/com/example/test1/services/jira/ProjectService.java:60-63 | an object body yields one project per member value, in order |
| ProjectService.NonOkStatusGivesEmptyList | src/main/java/com/example/test1/services/jira/ProjectService.java:56-75 | any status but 200 gives an empty list; a thrown exchange gives the service exception |
| ProjectService.GetAllProjects | src/main/java/com/example/test1/services/jira/ProjectService.java:39-76 | the result is `ProjectsFromOutcome` of the exchange |
| ProjectService.GetProjectDetails | src/main/java/com/example/test1/services/jira/ProjectService.java:78-107 | succeeds iff the exchange answers 200 with a parseable body; the project is then the reference decoding of that body |
| ProjectService.SearchProjects | src/main/java/com/example/test1/services/jira/ProjectService.java:109-129 | a null or blank term returns the full list unchanged, a failure of `getAllProjects` propagates, and any result is an order-preserving subsequence of the full list |
| ProjectService.Needle | src/main/java/com/example/test1/services/jira/ProjectService.java:117 | the lowercased, trimmed term is no longer than the term, has no upper-case ASCII letter, and is empty exactly when the term is blank |
| ProjectService.ProjectMatches | src/main/java/com/example/test1/services/jira/ProjectService.java:120-124 | true iff one of name, key and description is non-null and its lowercase form contains the needle |
| ProjectService.SearchProjectsKeepsExactlyMatches | src/main/java/com/example/test1/services/jira/ProjectService.java:117-125 | for a non-blank term a project is kept iff it is in the list and the lowercased, trimmed term occurs in its lowercase non-null name, key or description; a matching project is kept as many times as the list holds it |
| Sequences.Filter | src/main/java/com/example/test1/services/jira/ProjectService.java:119-125 | the kept elements all satisfy the predicate, come from the input, and are no more than the input |
| Sequences.FilterIsSubsequence | src/main/java/com/example/test1/services/jira/ProjectService.java:119-125 | a stream filter never adds or reorders elements |
| Sequences.FilterMembership | src/main/java/com/example/test1/services/jira/ProjectService.java:119-125 | an element is kept iff it occurs in the input and satisfies the predicate |
| Sequences.FilterKeepsAll | src/main/java/com/example/test1/services/jira/ProjectService.java:119-125 | when every element satisfies the predicate the input comes back unchanged |
| Sequences.FilterCount | src/main/java/com/example/test1/repositories/jira/JiraUserRepository.java:11 | a kept element occurs as often as in the input, a rejected one never |
| Repositories.NewJiraUser | src/main/java/com/example/test1/entities/jira/JiraUser.java:13 | a new mirror row has no id and no username and is active |
| Repositories.JiraUserRepository.FindByActive | src/main/java/com/example/test1/repositories/jira/JiraUserRepository.java:11 | no more rows than the table, each a row of the table carrying the requested flag |
| Repositories.UserRepository.ExistsByEmail | src/main/java/com/example/test1/repositories/primary/UserRepository.java:11 | false exactly when no row carries the email (a null argument asks for a row without one) |
| Repositories.FindByActiveSelects | src/main/java/com/example/test1/repositories/jira/JiraUserRepository.java:11 | `findByActive(flag)` is a subsequence of the table holding each row with that flag as often as the table does, and no other row |
| Repositories.AppendFreshEmailKeepsUnique | src/main/java/com/example/test1/services/AuthServiceImpl.java:24-34 | adding a row whose email is not yet registered keeps emails unique |
| Repositories.UserRepository.Save | src/main/java/com/example/test1/services/AuthServiceImpl.java:34 | a fresh entity is appended under the next identity id, and ids stay distinct |
| Repositories.JiraUserRepository.Save | src/main/java/com/example/test1/services/UserSyncService.java:29 | a fresh entity is appended under the next identity id, and ids stay distinct |
| UserSync.UserSyncService.SyncUsers | src/main/java/com/example/test1/services/UserSyncService.java:23-31 | one new active mirror row per local user with that user's username, in order; existing mirror rows and the user table are unchanged |
| UserSync.UserSyncService.SyncUsersFromJira | src/main/java/com/example/test1/services/UserSyncService.java:34-46 | returns the number of active mirror rows and appends that many local users, each carrying only the username of the matching active row, in order; the mirror is unchanged |
| UserSync.SyncUsersTwice | src/main/java/com/example/test1/services/UserSyncService.java:23-31 | two calls add two rows per local user: nothing is deduplicated |
| UserSync.SyncUsersFromJiraTwice | src/main/java/com/example/test1/services/UserSyncService.java:34-46 | two calls import the same count twice and add twice as many users |
| AuthService.AuthServiceImpl.CreateUser | src/main/java/com/example/test1/services/AuthServiceImpl.java:23-37 | returns false iff the email (possibly null) is already registered; for a new email a null password makes the encoder throw; both leave the table unchanged; otherwise it returns true and exactly one row is appended under the next id with the request's email and username and the encoded password; afterwards the email is registered and a table with unique emails keeps them unique |
| JiraUserDetails.LoadUserByUsername | src/main/java/com/example/test1/services/jwt/JiraUserDetailsService.java:26-49 | not found when both lookups are null, or the record's `active` is false; on success the user has the record's name, an empty password and exactly `ROLE_USER`; success iff a record exists, is not inactive and has a non-empty string name |
| JiraUserDetails.EmailLookupOnlyAsFallback | src/main/java/com/example/test1/services/jwt/JiraUserDetailsService.java:27-31 | when the username lookup answers, the email lookup cannot affect the result |
| JiraUserDetails.OnlyTheGivenUsernameIsLookedUp | src/main/java/com/example/test1/services/jwt/JiraUserDetailsService.java:27-31 | only the lookups' answers for the given username affect the result |
| JiraUserDetails.EmptyRecordIsNotMissing | src/main/java/com/example/test1/services/jwt/JiraUserDetailsService.java:27-48 | the empty map returned on an HTTP error causes neither an email fallback nor not-found; Spring's `User` then rejects the null name |
| JiraAuthenticationProvider.Authenticate | src/main/java/com/example/test1/authentication/JiraAuthenticationProvider.java:30-41 | rejected credentials give bad credentials; accepted credentials whose details load give exactly the authenticated token whose principal is the loaded details, whose credentials are the submitted password and whose authorities are the details' authorities; a failure to load propagates; a success implies both checks passed |
| JiraAuthenticationProvider.RejectedCredentialsLoadNothing | src/main/java/com/example/test1/authentication/JiraAuthenticationProvider.java:34-40 | after a failed validation the details service cannot affect the result |
| JiraAuthenticationProvider.DetailsOfTheValidatedUserOnly | src/main/java/com/example/test1/authentication/JiraAuthenticationProvider.java:31-35 | details are loaded for exactly the validated username |
| JiraAuthenticationProvider.Supports | src/main/java/com/example/test1/authentication/JiraAuthenticationProvider.java:44-46 | the token class itself is supported; a supported class has the token class's name and does not have the token class among its superclasses |
| JiraAuthenticationProvider.SubclassesAreNotSupported | src/main/java/com/example/test1/authentication/JiraAuthenticationProvider.java:44-46 | `supports` is class equality, so a subclass of the token class is rejected |
| JiraAuthenticationProvider.JiraLogin | src/main/java/com/example/test1/authentication/JiraAuthenticationProvider.java:30-41 | with the Jira details service behind it: for any consulted record that is not inactive and has a non-empty string `name`, whatever its other members, an accepted login yields the token for that name with no password and exactly `ROLE_USER`, and a rejected one yields bad credentials |

## Left out

- The HTTP exchanges (`RestTemplate.exchange`) are not modelled. A service receives the outcome as a parameter: a status and a parsed body, or a thrown exception.
- The URLs, and the `maxResults` and `startAt` query text, are not modelled. The request is represented by the `SearchQuery` value it carries.
- `URLEncoder.encode` of the JQL is not modelled.
- The Basic authentication header (`createAuthHeaders`, Base64 per RFC 4648 section 4, RFC 7617) is not modelled.
- Whether a 4xx or 5xx status reaches the non-200 branch at all depends on RestTemplate's error handler, which is not modelled. The model lets every status reach that branch.
- `objectMapper.readTree` is not modelled: JSON text is never parsed. A body that cannot be parsed is `None`, which the services turn into their exception.
- Jackson's `asText` of a number is taken as given text, not computed.
- `JiraApiService` and `JiraService` are not modelled as files. `validateCredentials`, `getUserByUsername` and `getUserByEmail` are function parameters.
- `validateJiraConfiguration` is not modelled. It is a bare HTTP status check.
- Logging is not modelled.
- `@Transactional` boundaries and rollback are not modelled.
- BCrypt is not modelled. The password encoder is a function parameter.
- JWT issuing and verifying, the controllers, the DTOs and the Spring Security and JPA configuration are not modelled.
- `Issue.IssueFields` is not modelled. The mapping code never fills it.
- JavaStrings.ToLower: lowercases ASCII letters only. It does not model Unicode case mapping or locale rules.
- Repositories.UserRepository.Save: requires an entity without an id. The merge path of JPA's `save` is never used by this code and is not modelled.
- Repositories.JiraUserRepository.Save: requires an entity without an id, for the same reason.
- The database's collation of `existsByemail` is not modelled. Email comparison is exact string equality.
- The order of `findAll` and `findByActive` is not modelled. It is assumed to be table (insertion) order; JPA does not guarantee this without an ordering clause.
- `SignupRequest` and `entities.primary.User` are not part of this model. Their fields are assumed to be email, username and password (plus the generated id), each possibly null, and `BeanUtils.copyProperties` is assumed to copy exactly those.
- AuthService.AuthServiceImpl.CreateUser: the encoder is modelled as refusing only a null password. Other encoder failures and database constraint violations on a null email or username are not modelled.
- JSON objects with a repeated member name are not excluded from the tree type. Jackson never builds one: on such text it keeps the last value, once. For those objects the model's `get` returns the first value and iteration visits both. The properties that concern the program are the ones about objects whose names are distinct (`JsonTree.DistinctNames`).
- IssueService.ProjectJql, IssueService.AssigneeJql, IssueService.StatusJql, IssueService.TextJql: take non-null strings. Java's concatenation would write a null argument as the text `null`, which is not modelled.
- JiraAuthenticationProvider.Authenticate: a null credentials object, whose `toString()` throws a NullPointerException, is not modelled. Attempts carry their credentials' text.
- JiraUserDetails.LoadUserByUsername: only records that are JSON-like maps are modelled. A value that is not a `Boolean` or a `String` where the code casts is reported as a `ClassCast` error.
- ProjectService.SearchProjects: takes the result of its `getAllProjects()` call as a parameter instead of making the exchange itself.
- Concurrency is not modelled: each operation runs alone. In the application `createUser` calls `existsByemail` and then `save` with no transaction or lock between them, so two simultaneous sign-ups with the same email can both pass the check and both be saved unless the database has a unique constraint; the model's unique-email guarantee holds only for calls that do not overlap.
- AuthService.AuthServiceImpl.passwordEncoder: a deterministic function. BCrypt draws a random salt, so encoding the same password twice gives different hashes; the model states only facts about a single call to the encoder.
- UserSync.UserSyncService.SyncUsersFromJira: the returned count is an unbounded integer. The Java counter is a 32-bit `int`, whose wrap-around past 2^31 - 1 imported rows is not modelled.
