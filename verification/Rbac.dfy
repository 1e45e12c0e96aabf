// Roles and permissions (app/core/rbac.py) and the rows the RBAC migration inserts
// (migrations/versions/49f933ee3842_add_rbac_tables.py).
//
// Names are unique in both tables, so rows are keyed by name.
module Rbac {
  import opened Wrappers

  datatype Role = Role(description: Option<string>, permissions: set<string>)

  datatype Database = Database(permissions: map<string, Option<string>>, roles: map<string, Role>)

  const DEFAULT_USER_ROLE_NAME: string := "user"

  /** The three tables of default rows. */
  datatype Defaults = Defaults(
    permissions: map<string, string>, roles: map<string, string>, rolePermissions: map<string, set<string>>)
  {
    /** The grants of a role, none if the table does not list it. */
    function Wanted(role: string): set<string> {
      if role in rolePermissions then rolePermissions[role] else {}
    }

    /** Every grant of a default role names a default permission. */
    ghost predicate Consistent() {
      forall role :: role in roles ==> Wanted(role) <= permissions.Keys
    }
  }

  const DEFAULTS: Defaults := Defaults(
    map[
      "users:read" := "View any user's account",
      "users:write" := "Update any user's account",
      "users:delete" := "Deactivate any user's account",
      "roles:manage" := "Assign or revoke roles"
    ],
    map[
      "admin" := "Full administrative access",
      "moderator" := "Can view and moderate user accounts",
      "user" := "Standard authenticated user"
    ],
    map[
      "admin" := {"users:read", "users:write", "users:delete", "roles:manage"},
      "moderator" := {"users:read", "users:write"},
      "user" := {}
    ])

  // ---------- access checks ----------

  function UserPermissions(roles: map<string, Role>, userRoles: set<string>): set<string> {
    set role, permission | role in userRoles && role in roles && permission in roles[role].permissions :: permission
  }

  /** `require_permissions(...)`: all the required permissions. */
  predicate PermissionCheck(roles: map<string, Role>, userRoles: set<string>, required: set<string>) {
    required <= UserPermissions(roles, userRoles)
  }

  /** `require_roles(...)`: any of the allowed roles. */
  predicate RoleCheck(userRoles: set<string>, allowed: set<string>) {
    userRoles * allowed != {}
  }

  // ---------- seeding ----------

  function SeededPermissions(defaults: Defaults, before: map<string, Option<string>>, done: set<string>)
    : map<string, Option<string>>
    requires done <= defaults.permissions.Keys
  {
    map name | name in before.Keys + done ::
      if name in before then before[name] else Some(defaults.permissions[name])
  }

  function SeededRoles(defaults: Defaults, before: map<string, Role>, done: set<string>): map<string, Role>
    requires done <= defaults.roles.Keys
  {
    map name | name in before.Keys + done ::
      var role := if name in before then before[name] else Role(Some(defaults.roles[name]), {});
      if name in done then role.(permissions := role.permissions + defaults.Wanted(name)) else role
  }

  /** Existing rows are kept; missing default rows are added; default roles gain their missing grants. */
  function Seeded(defaults: Defaults, db: Database): Database {
    Database(SeededPermissions(defaults, db.permissions, defaults.permissions.Keys),
             SeededRoles(defaults, db.roles, defaults.roles.Keys))
  }

  /** A database session. */
  class Session {
    var permissions: map<string, Option<string>>
    var roles: map<string, Role>

    constructor (db: Database)
      ensures Contents() == db
    {
      permissions := db.permissions;
      roles := db.roles;
    }

    ghost function Contents(): Database
      reads this
    {
      Database(permissions, roles)
    }
  }

  lemma PermissionsStep(defaults: Defaults, before: map<string, Option<string>>, done: set<string>, name: string)
    requires done + {name} <= defaults.permissions.Keys && name !in done
    ensures
      var now := SeededPermissions(defaults, before, done);
      SeededPermissions(defaults, before, done + {name})
        == if name in now then now else now[name := Some(defaults.permissions[name])]
  {
    var now, next := SeededPermissions(defaults, before, done), SeededPermissions(defaults, before, done + {name});
    assert next.Keys == now.Keys + {name};
  }

  lemma RolesStep(defaults: Defaults, before: map<string, Role>, done: set<string>, name: string,
                  now: map<string, Role>)
    requires done + {name} <= defaults.roles.Keys && name !in done
    requires now == SeededRoles(defaults, before, done)
    ensures
      var role := if name in now then now[name] else Role(Some(defaults.roles[name]), {});
      SeededRoles(defaults, before, done + {name})
        == now[name := role.(permissions := role.permissions + defaults.Wanted(name))]
  {
    var next := SeededRoles(defaults, before, done + {name});
    assert next.Keys == now.Keys + {name};
  }

  lemma UpdateTwice<K, V>(m: map<K, V>, k: K, a: V, b: V)
    ensures m[k := a][k := b] == m[k := b]
  {
  }

  lemma MoveOne<X>(done: set<X>, names: set<X>, all: set<X>, x: X)
    requires done !! names && done + names == all && x in names
    ensures done + {x} !! names - {x} && (done + {x}) + (names - {x}) == all
    ensures done + {x} <= all && x !in done
  {
  }

  lemma KeysAdd<K, V>(m: map<K, V>, k: K, v: V)
    ensures m[k := v].Keys == m.Keys + {k}
  {
  }

  lemma UpdateSame<K, V>(m: map<K, V>, k: K)
    requires k in m
    ensures m[k := m[k]] == m
  {
  }

  lemma NoPermissionDone(defaults: Defaults, permissions: map<string, Option<string>>)
    ensures SeededPermissions(defaults, permissions, {}) == permissions
  {
    assert SeededPermissions(defaults, permissions, {}).Keys == permissions.Keys;
  }

  lemma NoRoleDone(defaults: Defaults, roles: map<string, Role>)
    ensures SeededRoles(defaults, roles, {}) == roles
  {
    assert SeededRoles(defaults, roles, {}).Keys == roles.Keys;
  }

  /** Never fails on any database: each permission the default roles want is found in `permissionsByName`. */
  method SeedRbacDefaults(session: Session)
    modifies session
    ensures session.Contents() == Seeded(DEFAULTS, old(session.Contents()))
  {
    DefaultsConsistent();
    var permissionsByName := EnsurePermissions(session, DEFAULTS);
    EnsureRoles(session, DEFAULTS, permissionsByName);
  }

  /** The first loop: each default permission is looked up or inserted, and remembered by name. */
  method EnsurePermissions(session: Session, defaults: Defaults) returns (permissionsByName: map<string, string>)
    modifies session`permissions
    ensures session.permissions == SeededPermissions(defaults, old(session.permissions), defaults.permissions.Keys)
    ensures permissionsByName.Keys == defaults.permissions.Keys
    ensures forall name :: name in permissionsByName ==> permissionsByName[name] == name
  {
    ghost var before := session.permissions;
    permissionsByName := map[];
    var names := defaults.permissions.Keys;
    NoPermissionDone(defaults, before);
    ghost var done: set<string> := {};
    while names != {}
      invariant done !! names && done + names == defaults.permissions.Keys
      invariant permissionsByName.Keys == done
      invariant forall name :: name in permissionsByName ==> permissionsByName[name] == name
      invariant session.permissions == SeededPermissions(defaults, before, done)
      decreases names
    {
      var name :| name in names;
      MoveOne(done, names, defaults.permissions.Keys, name);
      KeysAdd(permissionsByName, name, name);
      PermissionsStep(defaults, before, done, name);
      if name !in session.permissions {
        session.permissions := session.permissions[name := Some(defaults.permissions[name])];
      }
      permissionsByName := permissionsByName[name := name];
      names, done := names - {name}, done + {name};
    }
    assert done == defaults.permissions.Keys;
  }

  /** The second loop: each default role is looked up or inserted and gains the grants it lacks. */
  method EnsureRoles(session: Session, defaults: Defaults, permissionsByName: map<string, string>)
    requires defaults.Consistent() && permissionsByName.Keys == defaults.permissions.Keys
    requires forall name :: name in permissionsByName ==> permissionsByName[name] == name
    modifies session`roles
    ensures session.roles == SeededRoles(defaults, old(session.roles), defaults.roles.Keys)
  {
    ghost var before := session.roles;
    var roleNames := defaults.roles.Keys;
    NoRoleDone(defaults, before);
    ghost var done: set<string> := {};
    while roleNames != {}
      invariant done !! roleNames && done + roleNames == defaults.roles.Keys
      invariant session.roles == SeededRoles(defaults, before, done)
      decreases roleNames
    {
      var roleName :| roleName in roleNames;
      MoveOne(done, roleNames, defaults.roles.Keys, roleName);
      RolesStep(defaults, before, done, roleName, session.roles);
      EnsureRole(session, roleName, defaults.roles[roleName], defaults.Wanted(roleName), permissionsByName);
      roleNames, done := roleNames - {roleName}, done + {roleName};
    }
    assert done == defaults.roles.Keys;
  }

  /** One round of the second loop. */
  method EnsureRole(session: Session, roleName: string, description: string, wanted: set<string>,
                    permissionsByName: map<string, string>)
    requires wanted <= permissionsByName.Keys
    requires forall name :: name in permissionsByName ==> permissionsByName[name] == name
    modifies session`roles
    ensures
      var now := old(session.roles);
      var role := if roleName in now then now[roleName] else Role(Some(description), {});
      session.roles == now[roleName := role.(permissions := role.permissions + wanted)]
  {
    if roleName !in session.roles {
      session.roles := session.roles[roleName := Role(Some(description), {})];
    }
    ghost var role := session.roles[roleName];
    GrantMissing(session, roleName, wanted, permissionsByName);
    UpdateTwice(old(session.roles), roleName, role, role.(permissions := role.permissions + wanted));
  }

  /** The inner loop: append each wanted permission the role lacks, looked up in `permissionsByName`. */
  method GrantMissing(session: Session, roleName: string, wanted: set<string>, permissionsByName: map<string, string>)
    requires roleName in session.roles && wanted <= permissionsByName.Keys
    requires forall name :: name in permissionsByName ==> permissionsByName[name] == name
    modifies session`roles
    ensures
      var role := old(session.roles[roleName]);
      session.roles == old(session.roles)[roleName := role.(permissions := role.permissions + wanted)]
  {
    ghost var role := session.roles[roleName];
    ghost var before := session.roles;
    var missing := wanted - session.roles[roleName].permissions;
    ghost var lacking := missing;
    assert role.(permissions := role.permissions + (lacking - missing)) == role;
    UpdateSame(before, roleName);
    while missing != {}
      invariant missing <= lacking
      invariant session.roles == before[roleName := role.(permissions := role.permissions + (lacking - missing))]
      decreases missing
    {
      var name :| name in missing;
      var granted := session.roles[roleName].permissions + {permissionsByName[name]};
      assert granted == role.permissions + (lacking - (missing - {name}));
      UpdateTwice(before, roleName, session.roles[roleName], role.(permissions := granted));
      session.roles := session.roles[roleName := session.roles[roleName].(permissions := granted)];
      missing := missing - {name};
    }
    assert role.permissions + (lacking - missing) == role.permissions + wanted;
  }

  // ---------- what seeding promises ----------

  /** Seeding twice is seeding once. */
  lemma SeedingIdempotent(defaults: Defaults, db: Database)
    ensures Seeded(defaults, Seeded(defaults, db)) == Seeded(defaults, db)
  {
    var once, twice := Seeded(defaults, db), Seeded(defaults, Seeded(defaults, db));
    assert twice.permissions == once.permissions;
    forall name | name in once.roles ensures twice.roles[name] == once.roles[name] {
      assert name in defaults.roles ==> defaults.Wanted(name) <= once.roles[name].permissions;
      assert name in defaults.roles
        ==> once.roles[name].permissions + defaults.Wanted(name) == once.roles[name].permissions;
    }
    assert twice.roles == once.roles;
  }

  /** Every default row exists afterwards and every default role holds at least its grants. */
  lemma SeedingEstablishesDefaults(defaults: Defaults, db: Database, role: string)
    ensures defaults.permissions.Keys <= Seeded(defaults, db).permissions.Keys
    ensures role in defaults.roles
      ==> role in Seeded(defaults, db).roles && defaults.Wanted(role) <= Seeded(defaults, db).roles[role].permissions
  {
  }

  /** Nothing an operator has set up is lost: rows, descriptions and grants all survive, custom roles unchanged. */
  lemma SeedingPreserves(defaults: Defaults, db: Database)
    ensures forall name :: name in db.permissions ==>
              name in Seeded(defaults, db).permissions && Seeded(defaults, db).permissions[name] == db.permissions[name]
    ensures forall name :: name in db.roles ==>
              && name in Seeded(defaults, db).roles
              && Seeded(defaults, db).roles[name].description == db.roles[name].description
              && db.roles[name].permissions <= Seeded(defaults, db).roles[name].permissions
              && (name !in defaults.roles ==> Seeded(defaults, db).roles[name] == db.roles[name])
  {
  }

  /** And nothing else is added: the rows and grants afterwards are those of before and the default ones. */
  lemma SeedingAddsExactly(defaults: Defaults, db: Database, role: string, permission: string)
    ensures Seeded(defaults, db).permissions.Keys == db.permissions.Keys + defaults.permissions.Keys
    ensures Seeded(defaults, db).roles.Keys == db.roles.Keys + defaults.roles.Keys
    ensures (role, permission) in Grants(Seeded(defaults, db))
      <==> (role, permission) in Grants(db) || (role in defaults.roles && permission in defaults.Wanted(role))
    ensures role in defaults.roles && role !in db.roles ==>
              Seeded(defaults, db).roles[role].description == Some(defaults.roles[role])
    ensures permission in defaults.permissions && permission !in db.permissions ==>
              Seeded(defaults, db).permissions[permission] == Some(defaults.permissions[permission])
  {
  }

  /** So nobody loses access by seeding. */
  lemma SeedingKeepsAccess(defaults: Defaults, db: Database, userRoles: set<string>, required: set<string>)
    requires PermissionCheck(db.roles, userRoles, required)
    ensures PermissionCheck(Seeded(defaults, db).roles, userRoles, required)
  {
    SeedingPreserves(defaults, db);
    forall permission | permission in required
      ensures permission in UserPermissions(Seeded(defaults, db).roles, userRoles)
    {
      assert permission in UserPermissions(db.roles, userRoles);
      var role :| role in userRoles && role in db.roles && permission in db.roles[role].permissions;
      assert role in Seeded(defaults, db).roles && permission in Seeded(defaults, db).roles[role].permissions;
    }
  }

  // ---------- the migration ----------

  const MIGRATION_PERMISSIONS: seq<(string, string)> := [
    ("users:read", "View any user's account"),
    ("users:write", "Update any user's account"),
    ("users:delete", "Deactivate any user's account"),
    ("roles:manage", "Assign or revoke roles")
  ]

  const MIGRATION_ROLES: seq<(string, string)> := [
    ("admin", "Full administrative access"),
    ("moderator", "Can view and moderate user accounts"),
    ("user", "Standard authenticated user")
  ]

  /** The rows of the association table the migration inserts. */
  const MIGRATION_GRANTS: set<(string, string)> := {
    ("admin", "users:read"), ("admin", "users:write"), ("admin", "users:delete"), ("admin", "roles:manage"),
    ("moderator", "users:read"), ("moderator", "users:write")
  }

  function Grants(db: Database): set<(string, string)> {
    set role, permission | role in db.roles && permission in db.roles[role].permissions :: (role, permission)
  }

  const EMPTY: Database := Database(map[], map[])

  lemma DefaultsConsistent()
    ensures DEFAULTS.Consistent()
  {
  }

  /** From empty tables, seeding and the migration leave the same permissions with the same descriptions. */
  lemma SeedingEqualsMigrationPermissions(name: string, text: string)
    ensures (name, text) in MIGRATION_PERMISSIONS <==>
            name in Seeded(DEFAULTS, EMPTY).permissions && Seeded(DEFAULTS, EMPTY).permissions[name] == Some(text)
  {
    assert Seeded(DEFAULTS, EMPTY).permissions.Keys == DEFAULTS.permissions.Keys;
  }

  /** ... the same roles ... */
  lemma SeedingEqualsMigrationRoles(name: string, text: string)
    ensures (name, text) in MIGRATION_ROLES <==>
            name in Seeded(DEFAULTS, EMPTY).roles && Seeded(DEFAULTS, EMPTY).roles[name].description == Some(text)
  {
    assert Seeded(DEFAULTS, EMPTY).roles.Keys == DEFAULTS.roles.Keys;
  }

  /** ... and the same role-permission relation. */
  lemma SeedingEqualsMigrationGrants(role: string, permission: string)
    ensures (role, permission) in Grants(Seeded(DEFAULTS, EMPTY)) <==> (role, permission) in MIGRATION_GRANTS
  {
    assert (role, permission) in Grants(Seeded(DEFAULTS, EMPTY))
      <==> role in DEFAULTS.roles && permission in DEFAULTS.Wanted(role);
  }
}
