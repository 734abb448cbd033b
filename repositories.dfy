/**
 * The two tables the core writes, as sequences of rows: the local `users` table behind
 * `UserRepository` and the `jira_user` mirror behind `JiraUserRepository`. Ids come from an
 * identity column: `save` of a fresh entity assigns the next one.
 */
module Repositories {
  import opened Wrappers
  import Sequences

  /** A row of the local user table. */
  datatype User = User(id: Option<nat>, email: Option<string>, password: Option<string>, username: Option<string>)

  /** A row of the Jira-user mirror. */
  datatype JiraUser = JiraUser(id: Option<nat>, username: Option<string>, active: bool)

  /** `new User()`: every property null. */
  function NewUser(): User {
    User(None, None, None, None)
  }

  /** `new JiraUser()`: no id, no username, and `active` initialised to true. */
  function NewJiraUser(): (u: JiraUser)
    ensures u.active && u.id.None? && u.username.None?
  {
    JiraUser(None, None, true)
  }

  /** No two rows that carry an email carry the same one. */
  ghost predicate EmailsUnique(rows: seq<User>) {
    forall i, j | 0 <= i < j < |rows| :: rows[i].email.Some? ==> rows[i].email != rows[j].email
  }

  /** Adding a row whose email is not yet registered keeps emails unique. */
  lemma AppendFreshEmailKeepsUnique(rows: seq<User>, user: User)
    requires EmailsUnique(rows)
    requires forall i | 0 <= i < |rows| :: rows[i].email != user.email
    ensures EmailsUnique(rows + [user])
  {
  }

  class UserRepository {
    var rows: seq<User>
    var nextId: nat

    /** Every row has an identity id below `nextId`, and no two rows share one. */
    ghost predicate Valid()
      reads this
    {
      && (forall i | 0 <= i < |rows| :: rows[i].id.Some? && rows[i].id.value < nextId)
      && (forall i, j | 0 <= i < j < |rows| :: rows[i].id != rows[j].id)
    }

    constructor Empty()
      ensures Valid() && rows == [] && nextId == 0
    {
      rows, nextId := [], 0;
    }

    /** `findAll()`: the rows in table order. */
    function FindAll(): seq<User>
      reads this
    {
      rows
    }

    /**
     * `existsByemail(email)`: some row carries this email. The derived query compares a null
     * argument with `IS NULL`, so `None` asks for a row without an email. The contract only
     * defines the query; `CreateUser` and `AppendFreshEmailKeepsUnique` use it.
     */
    predicate ExistsByEmail(email: Option<string>): (b: bool)
      reads this
      ensures !b <==> forall i | 0 <= i < |rows| :: rows[i].email != email
    {
      exists i | 0 <= i < |rows| :: rows[i].email == email
    }

    /** `save(entity)` of an entity without an id: inserts it under a fresh identity id. */
    method Save(entity: User) returns (saved: User)
      requires Valid() && entity.id.None?
      modifies this
      ensures Valid()
      ensures saved == entity.(id := Some(old(nextId)))
      ensures rows == old(rows) + [saved] && nextId == old(nextId) + 1
    {
      saved := entity.(id := Some(nextId));
      rows := rows + [saved];
      nextId := nextId + 1;
    }
  }

  class JiraUserRepository {
    var rows: seq<JiraUser>
    var nextId: nat

    /** Every row has an identity id below `nextId`, and no two rows share one. */
    ghost predicate Valid()
      reads this
    {
      && (forall i | 0 <= i < |rows| :: rows[i].id.Some? && rows[i].id.value < nextId)
      && (forall i, j | 0 <= i < j < |rows| :: rows[i].id != rows[j].id)
    }

    constructor Empty()
      ensures Valid() && rows == [] && nextId == 0
    {
      rows, nextId := [], 0;
    }

    /** `findByActive(active)`: the rows whose flag equals `active`, in table order. */
    function FindByActive(active: bool): (found: seq<JiraUser>)
      reads this
      ensures |found| <= |rows|
      ensures forall i | 0 <= i < |found| :: found[i].active == active && found[i] in rows
    {
      Sequences.Filter(rows, (row: JiraUser) => row.active == active)
    }

    /** `save(entity)` of an entity without an id: inserts it under a fresh identity id. */
    method Save(entity: JiraUser) returns (saved: JiraUser)
      requires Valid() && entity.id.None?
      modifies this
      ensures Valid()
      ensures saved == entity.(id := Some(old(nextId)))
      ensures rows == old(rows) + [saved] && nextId == old(nextId) + 1
    {
      saved := entity.(id := Some(nextId));
      rows := rows + [saved];
      nextId := nextId + 1;
    }
  }

  /**
   * `findByActive(flag)` holds each row with that flag exactly as often as the table does and no
   * other row, in table order.
   */
  lemma FindByActiveSelects(rows: seq<JiraUser>, flag: bool, row: JiraUser)
    ensures var found := Sequences.Filter(rows, (r: JiraUser) => r.active == flag);
      && Sequences.IsSubsequence(found, rows)
      && multiset(found)[row] == if row.active == flag then multiset(rows)[row] else 0
  {
    Sequences.FilterIsSubsequence(rows, (r: JiraUser) => r.active == flag);
    Sequences.FilterCount(rows, (r: JiraUser) => r.active == flag, row);
  }
}
