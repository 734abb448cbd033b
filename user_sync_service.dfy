/** `UserSyncService`: batch copies between the local user table and the Jira-user mirror. */
module UserSync {
  import opened Wrappers
  import opened Repositories

  class UserSyncService {
    const userRepository: UserRepository
    const jiraUserRepository: JiraUserRepository

    constructor (userRepository: UserRepository, jiraUserRepository: JiraUserRepository)
      ensures this.userRepository == userRepository && this.jiraUserRepository == jiraUserRepository
    {
      this.userRepository := userRepository;
      this.jiraUserRepository := jiraUserRepository;
    }

    /**
     * `syncUsers()`: one fresh, active mirror row per local user, with that user's username, in
     * table order. Existing mirror rows are never updated and the user table is not touched.
     */
    method SyncUsers()
      requires userRepository.Valid() && jiraUserRepository.Valid()
      modifies jiraUserRepository
      ensures jiraUserRepository.Valid()
      ensures unchanged(userRepository)
      ensures |jiraUserRepository.rows| == |old(jiraUserRepository.rows)| + |userRepository.rows|
      ensures jiraUserRepository.rows[..|old(jiraUserRepository.rows)|] == old(jiraUserRepository.rows)
      ensures forall i | 0 <= i < |userRepository.rows| ::
                jiraUserRepository.rows[|old(jiraUserRepository.rows)| + i] ==
                JiraUser(Some(old(jiraUserRepository.nextId) + i), userRepository.rows[i].username, true)
      ensures jiraUserRepository.nextId == old(jiraUserRepository.nextId) + |userRepository.rows|
    {
      var users := userRepository.FindAll();
      ghost var before := jiraUserRepository.rows;
      ghost var firstId := jiraUserRepository.nextId;
      for k := 0 to |users|
        invariant jiraUserRepository.Valid()
        invariant |jiraUserRepository.rows| == |before| + k
        invariant jiraUserRepository.rows[..|before|] == before
        invariant forall i | 0 <= i < k ::
                    jiraUserRepository.rows[|before| + i] == JiraUser(Some(firstId + i), users[i].username, true)
        invariant jiraUserRepository.nextId == firstId + k
      {
        var jiraUser := NewJiraUser();
        jiraUser := jiraUser.(username := users[k].username);
        jiraUser := jiraUser.(active := true);
        var _ := jiraUserRepository.Save(jiraUser);
      }
    }

    /**
     * `syncUsersFromJira()`: one fresh local user per active mirror row, carrying only that
     * row's username, in the order `findByActive(true)` returns them; the count is returned.
     * The mirror is not touched.
     */
    method SyncUsersFromJira() returns (imported: int)
      requires userRepository.Valid() && jiraUserRepository.Valid()
      modifies userRepository
      ensures userRepository.Valid()
      ensures unchanged(jiraUserRepository)
      ensures imported == |jiraUserRepository.FindByActive(true)|
      ensures |userRepository.rows| == |old(userRepository.rows)| + imported
      ensures userRepository.rows[..|old(userRepository.rows)|] == old(userRepository.rows)
      ensures forall i | 0 <= i < imported ::
                userRepository.rows[|old(userRepository.rows)| + i] ==
                NewUser().(id := Some(old(userRepository.nextId) + i),
                           username := jiraUserRepository.FindByActive(true)[i].username)
      ensures userRepository.nextId == old(userRepository.nextId) + imported
    {
      var activeJiraUsers := jiraUserRepository.FindByActive(true);
      imported := 0;
      ghost var before := userRepository.rows;
      ghost var firstId := userRepository.nextId;
      for k := 0 to |activeJiraUsers|
        invariant userRepository.Valid()
        invariant imported == k
        invariant |userRepository.rows| == |before| + k
        invariant userRepository.rows[..|before|] == before
        invariant forall i | 0 <= i < k ::
                    userRepository.rows[|before| + i] ==
                    NewUser().(id := Some(firstId + i), username := activeJiraUsers[i].username)
        invariant userRepository.nextId == firstId + k
      {
        var user := NewUser();
        user := user.(username := activeJiraUsers[k].username);
        var _ := userRepository.Save(user);
        imported := imported + 1;
      }
    }
  }

  /** Neither copy deduplicates: a second `syncUsers()` adds a second row per local user. */
  method SyncUsersTwice(service: UserSyncService)
    requires service.userRepository.Valid() && service.jiraUserRepository.Valid()
    modifies service.jiraUserRepository
    ensures |service.jiraUserRepository.rows| ==
            |old(service.jiraUserRepository.rows)| + 2 * |service.userRepository.rows|
  {
    service.SyncUsers();
    service.SyncUsers();
  }

  /** A second `syncUsersFromJira()` imports the same active rows again, doubling what is added. */
  method SyncUsersFromJiraTwice(service: UserSyncService) returns (first: int, second: int)
    requires service.userRepository.Valid() && service.jiraUserRepository.Valid()
    modifies service.userRepository
    ensures first == second == |service.jiraUserRepository.FindByActive(true)|
    ensures |service.userRepository.rows| == |old(service.userRepository.rows)| + 2 * first
  {
    first := service.SyncUsersFromJira();
    second := service.SyncUsersFromJira();
  }
}
