/** What a fresh installation may reach: the access rows that apply writes in
    sql/bootstrap/initial_seed.go:210-312, and who gets to which interface through them. */
module SeedAccess {
  import opened Basics
  import opened Permcode
  import opened ApiCatalog
  import opened InitialSeed
  import opened ResolverOrder

  // ---------- The tables ----------

  datatype Role = Role(tenant: nat, code: string)

  /** The rows by id: interfaces, roles, permissions (by code), and the two link tables. */
  datatype Access = Access(apis: Rows, roles: map<nat, Role>, permissions: map<nat, string>,
                           rolePermissions: set<(nat, nat)>, permissionApis: set<(nat, nat)>)

  /** The table has a unique index on the code. */
  ghost predicate UniqueCodes(permissions: map<nat, string>) {
    forall p, q :: p in permissions && q in permissions && permissions[p] == permissions[q] ==> p == q
  }

  predicate IsRowOf(row: Row, r: Route) {
    row.api.verb == r.verb && row.api.path == r.path
  }

  datatype SeedError = WrongApiCount | NoRole | NoApi | IdTaken

  // ---------- What apply leaves ----------

  /** The codes a role holds, by what the role is. */
  ghost predicate Granted(s: Seed, before: Access, after: Access, platform: nat, tenant: nat, x: nat, code: string) {
    || (x == platform && code in CodesFor(s.permissions, "platform"))
    || (x == tenant && code in CodesFor(s.permissions, "tenant"))
    || (x in after.roles && x !in before.roles
        && exists t :: t in s.templates && t.code == after.roles[x].code && code in t.permissions)
  }

  ghost predicate RoleRows(s: Seed, before: Access, after: Access, platform: nat, tenant: nat) {
    && platform in before.roles && before.roles[platform] == Role(0, PLATFORM_ROLE)
    && tenant in before.roles && before.roles[tenant] == Role(0, TENANT_ROLE)
    && (forall x :: x in before.roles ==> x in after.roles && after.roles[x] == before.roles[x])
    && forall x: nat, p: nat :: (x, p) in after.rolePermissions <==>
         p in after.permissions && Granted(s, before, after, platform, tenant, x, after.permissions[p])
  }

  ghost predicate Links(s: Seed, row: Row, code: string) {
    exists r :: r in s.routes && IsRowOf(row, r) && code in r.permissions
  }

  ghost predicate ApiRows(s: Seed, before: Access, after: Access) {
    && after.apis == before.apis
    && (forall a :: a in after.apis ==> exists r :: r in s.routes && IsRowOf(after.apis[a], r))
    && forall p: nat, a: nat :: (p, a) in after.permissionApis <==>
         p in after.permissions && a in after.apis && Links(s, after.apis[a], after.permissions[p])
  }

  ghost predicate Applied(s: Seed, before: Access, after: Access) {
    && UniqueCodes(after.permissions)
    && (forall p :: p in before.permissions ==> p in after.permissions && after.permissions[p] == before.permissions[p])
    && (forall c :: c in Codes(s.permissions) ==> exists p :: p in after.permissions && after.permissions[p] == c)
    && (exists platform, tenant :: RoleRows(s, before, after, platform, tenant))
    && ApiRows(s, before, after)
  }

  // ---------- Who reaches what ----------

  predicate Reaches(t: Access, x: nat, a: nat) {
    exists l :: l in t.rolePermissions && l.0 == x && (l.1, a) in t.permissionApis
  }

  predicate IsPlatformApi(resolver: Resolver, row: Row) {
    var e := Resolve(resolver, row.api.verb, row.api.path);
    e.Ok? && e.value.entry.scopeKind == "platform"
  }

  const TENANT_ROLES: set<string> := {TENANT_ROLE, "template:tenant:developer", "template:tenant:viewer"}

  lemma {:induction false} TenantCodesOnly(s: Seed, before: Access, after: Access, platform: nat, tenant: nat, x: nat,
                                           p: nat)
    requires TemplatesOk(s.permissions, s.templates) && RoleRows(s, before, after, platform, tenant)
    requires x in after.roles && after.roles[x].code in TENANT_ROLES
    requires (x, p) in after.rolePermissions
    ensures p in after.permissions && after.permissions[p] in CodesFor(s.permissions, "tenant")
  {
    hide CodesFor;
    var code := after.permissions[p];
    assert x != platform;
    if x != tenant {
      var t :| t in s.templates && t.code == after.roles[x].code && code in t.permissions;
      var i :| 0 <= i < |s.templates| && s.templates[i] == t;
      assert TemplateOk(s.permissions, s.templates, i);
    }
  }

  lemma {:induction false} PlatformLinks(resolver: Resolver, catalog: seq<API>, s: Seed, row: Row, code: string)
    requires RoutesOk(resolver, catalog, s) && IsPlatformApi(resolver, row) && Links(s, row, code)
    ensures code !in CodesFor(s.permissions, "tenant")
  {
    hide CodesFor, Resolve;
    var r :| r in s.routes && IsRowOf(row, r) && code in r.permissions;
    assert RouteOk(resolver, catalog, s.permissions, r);
  }

  /** No tenant role gets to an interface of platform scope. */
  lemma {:induction false} TenantNeverReachesPlatform(resolver: Resolver, catalog: seq<API>, routeCount: nat, s: Seed,
                                                      before: Access, after: Access, x: nat, a: nat)
    requires ValidSeed(resolver, catalog, routeCount, s) && Applied(s, before, after)
    requires x in after.roles && after.roles[x].code in TENANT_ROLES
    requires a in after.apis && IsPlatformApi(resolver, after.apis[a])
    ensures !Reaches(after, x, a)
  {
    hide CodesFor, Resolve, TemplatesOk, RoutesOk;
    var platform, tenant :| RoleRows(s, before, after, platform, tenant);
    forall l | l in after.rolePermissions && l.0 == x ensures (l.1, a) !in after.permissionApis {
      assert l == (x, l.1);
      TenantCodesOnly(s, before, after, platform, tenant, x, l.1);
      forall c | Links(s, after.apis[a], c) ensures c !in CodesFor(s.permissions, "tenant") {
        PlatformLinks(resolver, catalog, s, after.apis[a], c);
      }
    }
  }

  /** Nor does one in the eyes of another process, which has an index of its own, as far as the tables
      settle the scope of the interface's route. */
  lemma {:induction false} TenantNeverReachesPlatformAnywhere(
    resolver: Resolver, other: Resolver, catalog: seq<API>, routeCount: nat, s: Seed, before: Access, after: Access,
    x: nat, a: nat)
    requires ValidSeed(resolver, catalog, routeCount, s) && Applied(s, before, after)
    requires IsIndex(resolver.tables, resolver) && IsIndex(resolver.tables, other) && NoConflicts(resolver.tables)
    requires x in after.roles && after.roles[x].code in TENANT_ROLES
    requires a in after.apis && ScopeSettled(resolver.tables, after.apis[a].api.verb, after.apis[a].api.path)
    requires IsPlatformApi(other, after.apis[a])
    ensures !Reaches(after, x, a)
  {
    var api := after.apis[a].api;
    ScopeSettledSame(resolver.tables, resolver, other, api.verb, api.path);
    PlatformByScope(resolver, after.apis[a]);
    PlatformByScope(other, after.apis[a]);
    hide *;
    TenantNeverReachesPlatform(resolver, catalog, routeCount, s, before, after, x, a);
  }

  lemma {:induction false} PlatformByScope(resolver: Resolver, row: Row)
    ensures IsPlatformApi(resolver, row) <==> ScopeOf(resolver, row.api.verb, row.api.path) == Some("platform")
  {
    hide Resolve;
  }

  /** What a tenant role does reach is of platform scope to no process exactly when no entry the
      resolver could hold for the route has that scope. */
  lemma {:induction false} PlatformToSomeProcessIff(t: Tables, row: Row)
    requires NoConflicts(t)
    ensures (exists r :: IsIndex(t, r) && IsPlatformApi(r, row))
       <==> CanHaveScope(t, row.api.verb, row.api.path, "platform")
  {
    hide CanHaveScope, NoConflicts, IsIndex;
    CanHaveScopeIff(t, row.api.verb, row.api.path, "platform");
    forall r ensures IsPlatformApi(r, row) <==> ScopeOf(r, row.api.verb, row.api.path) == Some("platform") {
      PlatformByScope(r, row);
    }
  }

  /** An interface that no permission leads to is one that authenticates on its own. */
  lemma {:induction false} UnlinkedIsIndependent(resolver: Resolver, catalog: seq<API>, routeCount: nat, s: Seed,
                                                 before: Access, after: Access, a: nat)
    requires ValidSeed(resolver, catalog, routeCount, s) && Applied(s, before, after)
    requires a in after.apis
    ensures (forall p :: (p, a) !in after.permissionApis) ==> KeyOf(after.apis[a].api) in INDEPENDENT
  {
    hide Codes, Resolve;
    var r :| r in s.routes && IsRowOf(after.apis[a], r);
    assert RouteOk(resolver, catalog, s.permissions, r);
    if r.permissions != [] {
      var c := r.permissions[0];
      assert c in Codes(s.permissions);
      var p :| p in after.permissions && after.permissions[p] == c;
      assert Links(s, after.apis[a], c);
      assert (p, a) in after.permissionApis;
    }
  }

  /** An interface with a required code is linked to that code. */
  lemma {:induction false} RequiredCodeIsLinked(resolver: Resolver, catalog: seq<API>, routeCount: nat, s: Seed,
                                                before: Access, after: Access, a: nat)
    requires ValidSeed(resolver, catalog, routeCount, s) && Applied(s, before, after)
    requires a in after.apis && Resolve(resolver, after.apis[a].api.verb, after.apis[a].api.path).Ok?
    ensures var code := Resolve(resolver, after.apis[a].api.verb, after.apis[a].api.path).value.entry.code;
            exists p :: p in after.permissions && after.permissions[p] == code && (p, a) in after.permissionApis
  {
    hide Codes, Resolve;
    var code := Resolve(resolver, after.apis[a].api.verb, after.apis[a].api.path).value.entry.code;
    var r :| r in s.routes && IsRowOf(after.apis[a], r);
    assert RouteOk(resolver, catalog, s.permissions, r);
    var p :| p in after.permissions && after.permissions[p] == code;
    assert Links(s, after.apis[a], code);
    assert (p, a) in after.permissionApis;
  }

  // ---------- catalogForInit ----------

  function RouteKeySet(rs: seq<Route>): set<string> {
    set r | r in rs :: RouteKey(r)
  }

  function Selected(catalog: seq<API>, allowed: set<string>): seq<API> {
    if catalog == [] then []
    else
      var last := |catalog| - 1;
      Selected(catalog[..last], allowed) + if KeyOf(catalog[last]) in allowed then [catalog[last]] else []
  }

  method CatalogForInit(s: Seed, catalog: seq<API>) returns (result: seq<API>)
    ensures result == Selected(catalog, RouteKeySet(s.routes))
  {
    var allowed: set<string> := {};
    for i := 0 to |s.routes|
      invariant allowed == RouteKeySet(s.routes[..i])
    {
      assert s.routes[..i + 1] == s.routes[..i] + [s.routes[i]];
      allowed := allowed + {RouteKey(s.routes[i])};
    }
    assert s.routes[..|s.routes|] == s.routes;
    result := [];
    for i := 0 to |catalog|
      invariant result == Selected(catalog[..i], allowed)
    {
      assert catalog[..i + 1][..i] == catalog[..i];
      if KeyOf(catalog[i]) in allowed {
        result := result + [catalog[i]];
      }
    }
    assert catalog[..|catalog|] == catalog;
  }

  lemma {:induction false} SelectedEntries(catalog: seq<API>, allowed: set<string>, a: API)
    ensures a in Selected(catalog, allowed) <==> a in catalog && KeyOf(a) in allowed
  {
    if catalog != [] {
      var last := |catalog| - 1;
      assert catalog == catalog[..last] + [catalog[last]];
      SelectedEntries(catalog[..last], allowed, a);
    }
  }

  lemma {:induction false} OneMoreEntry(front: seq<API>, back: API)
    requires CatalogDistinct(front) && |front| == |CatalogKeys(front)|
    requires KeyOf(back) !in CatalogKeys(front)
    ensures CatalogDistinct(front + [back]) && |front + [back]| == |CatalogKeys(front + [back])|
  {
    hide KeyOf;
    forall i | 0 <= i < |front| ensures KeyOf(front[i]) != KeyOf(back) {
      assert front[i] in front;
    }
    assert CatalogKeys(front + [back]) == CatalogKeys(front) + {KeyOf(back)};
  }

  lemma {:induction false} SelectedDistinct(catalog: seq<API>, allowed: set<string>)
    requires CatalogDistinct(catalog)
    ensures CatalogDistinct(Selected(catalog, allowed))
    ensures |Selected(catalog, allowed)| == |CatalogKeys(Selected(catalog, allowed))|
  {
    hide KeyOf;
    if catalog != [] {
      var last := |catalog| - 1;
      var front, back := Selected(catalog[..last], allowed), catalog[last];
      assert CatalogDistinct(catalog[..last]);
      SelectedDistinct(catalog[..last], allowed);
      forall a | a in front ensures KeyOf(a) != KeyOf(back) {
        SelectedEntries(catalog[..last], allowed, a);
        var k :| 0 <= k < last && catalog[..last][k] == a;
        assert catalog[k] == a;
      }
      assert KeyOf(back) !in CatalogKeys(front);
      OneMoreEntry(front, back);
      assert KeyOf(back) !in allowed ==> Selected(catalog, allowed) == front;
    }
  }

  /** The installed catalogue has exactly one interface for each route of the manifest. */
  lemma {:induction false} OneInterfacePerRoute(resolver: Resolver, catalog: seq<API>, s: Seed)
    requires RoutesOk(resolver, catalog, s)
    ensures var installed := Selected(catalog, RouteKeySet(s.routes));
            CatalogDistinct(installed) && |installed| == |s.routes| && CatalogKeys(installed) == RouteKeySet(s.routes)
  {
    hide RouteOk, ExcludedOk, Resolve, CodesFor, Codes;
    var allowed := RouteKeySet(s.routes);
    var installed := Selected(catalog, allowed);
    SelectedDistinct(catalog, allowed);
    forall k | k in allowed ensures k in CatalogKeys(installed) {
      var r :| r in s.routes && RouteKey(r) == k;
      RouteInCatalog(resolver, catalog, s, r);
      var a :| a in catalog && KeyOf(a) == k;
      SelectedEntries(catalog, allowed, a);
    }
    forall k | k in CatalogKeys(installed) ensures k in allowed {
      var a :| a in installed && KeyOf(a) == k;
      SelectedEntries(catalog, allowed, a);
    }
    assert CatalogKeys(installed) == allowed;
    DistinctCount(s.routes, s.excluded);
  }

  lemma {:induction false} RouteInCatalog(resolver: Resolver, catalog: seq<API>, s: Seed, r: Route)
    requires RoutesOk(resolver, catalog, s) && r in s.routes
    ensures exists a :: a in catalog && KeyOf(a) == RouteKey(r)
  {
    assert RouteOk(resolver, catalog, s.permissions, r);
  }

  lemma {:induction false} DistinctCount(rs: seq<Route>, more: seq<Route>)
    requires NoRepeats(RouteKeys(rs + more))
    ensures |RouteKeySet(rs)| == |rs|
  {
    if rs != [] {
      var last := |rs| - 1;
      assert rs + more == rs[..last] + ([rs[last]] + more);
      DistinctCount(rs[..last], [rs[last]] + more);
      LastIsNew(rs[..last], rs[last], more);
      assert rs == rs[..last] + [rs[last]];
      hide *;
      assert |RouteKeySet(rs[..last]) + {RouteKey(rs[last])}| == |RouteKeySet(rs[..last])| + 1;
    }
  }

  lemma {:induction false} LastIsNew(rs: seq<Route>, r: Route, more: seq<Route>)
    requires NoRepeats(RouteKeys(rs + ([r] + more)))
    ensures RouteKeySet(rs + [r]) == RouteKeySet(rs) + {RouteKey(r)} && RouteKey(r) !in RouteKeySet(rs)
  {
    hide RouteKey;
    var keys := RouteKeys(rs + ([r] + more));
    assert keys[|rs|] == RouteKey(r);
    forall q | q in rs ensures RouteKey(q) != RouteKey(r) {
      var k :| 0 <= k < |rs| && rs[k] == q;
      assert keys[k] == RouteKey(q);
    }
  }

  // ---------- apply ----------

  class Database {
    var apis: Rows
    var roles: map<nat, Role>
    var permissions: map<nat, string>
    var rolePermissions: set<(nat, nat)>
    var permissionApis: set<(nat, nat)>
    var roleSequence: nat
    var permissionSequence: nat

    function Now(): Access
      reads this
    {
      Access(apis, roles, permissions, rolePermissions, permissionApis)
    }

    /** The sequences are past all ids, so that no insert meets one. */
    ghost predicate PermissionsAhead()
      reads this
    {
      forall p :: p in permissions ==> p <= permissionSequence
    }

    ghost predicate RolesAhead()
      reads this
    {
      forall x :: x in roles ==> x <= roleSequence
    }

    constructor (now: Access, roleSequence: nat, permissionSequence: nat)
      ensures Now() == now
    {
      apis, roles, permissions := now.apis, now.roles, now.permissions;
      rolePermissions, permissionApis := now.rolePermissions, now.permissionApis;
      this.roleSequence, this.permissionSequence := roleSequence, permissionSequence;
    }

    method SelectRole(code: string) returns (id: Option<nat>)
      ensures id.Some? ==> id.value in roles && roles[id.value] == Role(0, code)
      ensures id.None? ==> forall x :: x in roles ==> roles[x] != Role(0, code)
    {
      if x :| x in roles && roles[x] == Role(0, code) {
        id := Some(x);
      } else {
        id := None;
      }
    }

    method SelectApi(r: Route) returns (id: Option<nat>)
      ensures id.Some? ==> id.value in apis && apis[id.value].status == "ON" && IsRowOf(apis[id.value], r)
      ensures id.None? ==> forall a :: a in apis ==> !(apis[a].status == "ON" && IsRowOf(apis[a], r))
    {
      if a :| a in apis && apis[a].status == "ON" && IsRowOf(apis[a], r) {
        id := Some(a);
      } else {
        id := None;
      }
    }

    /** The insert that updates on a conflict of codes; an id already in use fails it. */
    method UpsertPermission(code: string) returns (id: Option<nat>)
      requires UniqueCodes(permissions)
      modifies this`permissions, this`permissionSequence
      ensures UniqueCodes(permissions)
      ensures id.Some? ==> permissions == old(permissions)[id.value := code]
      ensures id.Some? ==> id.value in old(permissions) ==> old(permissions)[id.value] == code
      ensures id.None? ==> permissions == old(permissions)
      ensures old(PermissionsAhead()) ==> id.Some? && PermissionsAhead()
    {
      if p :| p in permissions && permissions[p] == code {
        assert permissions == permissions[p := code];
        return Some(p);
      }
      permissionSequence := permissionSequence + 1;
      if permissionSequence in permissions {
        return None;
      }
      permissions := permissions[permissionSequence := code];
      id := Some(permissionSequence);
    }

    method InsertRole(code: string) returns (id: Option<nat>)
      modifies this`roles, this`roleSequence
      ensures id.Some? ==> id.value !in old(roles) && roles == old(roles)[id.value := Role(0, code)]
      ensures id.None? ==> roles == old(roles)
      ensures old(RolesAhead()) ==> id.Some? && RolesAhead()
    {
      roleSequence := roleSequence + 1;
      if roleSequence in roles {
        return None;
      }
      roles := roles[roleSequence := Role(0, code)];
      id := Some(roleSequence);
    }

    method GrantAll(x: nat, codes: seq<string>, ids: map<string, nat>)
      requires forall c :: c in codes ==> c in ids
      modifies this`rolePermissions
      ensures forall y: nat, p: nat :: (y, p) in rolePermissions <==>
                (y, p) in old(rolePermissions) || (y == x && exists c :: c in codes && ids[c] == p)
    {
      for i := 0 to |codes|
        invariant forall y: nat, p: nat :: (y, p) in rolePermissions <==>
                    (y, p) in old(rolePermissions) || (y == x && exists c :: c in codes[..i] && ids[c] == p)
      {
        assert codes[..i + 1] == codes[..i] + [codes[i]];
        rolePermissions := rolePermissions + {(x, ids[codes[i]])};
      }
      assert codes[..|codes|] == codes;
    }

    /** Grants permission p to the role of each name. */
    method GrantRoles(roles: seq<string>, p: nat, platform: nat, tenant: nat)
      modifies this`rolePermissions
      ensures forall x: nat, q: nat :: (x, q) in rolePermissions <==>
                || (x, q) in old(rolePermissions)
                || (q == p && exists r :: r in roles && x == RoleFor(r, platform, tenant))
    {
      for k := 0 to |roles|
        invariant forall x: nat, q: nat :: (x, q) in rolePermissions <==>
                    || (x, q) in old(rolePermissions)
                    || (q == p && exists r :: r in roles[..k] && x == RoleFor(r, platform, tenant))
      {
        assert roles[..k + 1] == roles[..k] + [roles[k]];
        rolePermissions := rolePermissions + {(RoleFor(roles[k], platform, tenant), p)};
      }
      assert roles[..|roles|] == roles;
    }

    method LinkAll(a: nat, codes: seq<string>, ids: map<string, nat>)
      requires forall c :: c in codes ==> c in ids
      modifies this`permissionApis
      ensures forall p: nat, b: nat :: (p, b) in permissionApis <==>
                (p, b) in old(permissionApis) || (b == a && exists c :: c in codes && ids[c] == p)
    {
      for i := 0 to |codes|
        invariant forall p: nat, b: nat :: (p, b) in permissionApis <==>
                    (p, b) in old(permissionApis) || (b == a && exists c :: c in codes[..i] && ids[c] == p)
      {
        assert codes[..i + 1] == codes[..i] + [codes[i]];
        permissionApis := permissionApis + {(ids[codes[i]], a)};
      }
      assert codes[..|codes|] == codes;
    }
  }

  /** ids gives the row of each code. */
  ghost predicate IdsOf(permissions: map<nat, string>, ids: map<string, nat>, codes: set<string>) {
    && UniqueCodes(permissions) && ids.Keys == codes
    && forall c :: c in ids ==> ids[c] in permissions && permissions[ids[c]] == c
  }

  ghost predicate DeclaredGrants(ps: seq<PermissionDecl>, platform: nat, tenant: nat, permissions: map<nat, string>,
                                 rows: set<(nat, nat)>)
  {
    forall x: nat, p: nat :: (x, p) in rows <==>
      && p in permissions
      && ((x == platform && permissions[p] in CodesFor(ps, "platform"))
          || (x == tenant && permissions[p] in CodesFor(ps, "tenant")))
  }

  ghost predicate OnlyAdds(before: map<nat, string>, after: map<nat, string>) {
    forall p :: p in before ==> p in after && after[p] == before[p]
  }

  function RoleFor(role: string, platform: nat, tenant: nat): nat {
    if role == "platform" then platform else tenant
  }

  lemma {:induction false} DeclarationFits(groups: set<string>, ps: seq<PermissionDecl>, i: nat,
                                           permissions: map<nat, string>, ids: map<string, nat>)
    requires i < |ps| && PermissionsOk(groups, ps) && IdsOf(permissions, ids, Codes(ps[..i]))
    ensures RolesOk(ps[i].roles) && ps[i].code !in Codes(ps[..i]) && UniqueCodes(permissions)
  {
    hide Codes;
    assert PermissionOk(groups, ps, i);
  }

  lemma {:induction false} IdAdded(ps: seq<PermissionDecl>, i: nat, first: map<nat, string>, was: map<nat, string>,
                                   ids: map<string, nat>, id: nat)
    requires i < |ps| && IdsOf(was, ids, Codes(ps[..i])) && OnlyAdds(first, was)
    requires UniqueCodes(was[id := ps[i].code]) && (id in was ==> was[id] == ps[i].code)
    ensures IdsOf(was[id := ps[i].code], ids[ps[i].code := id], Codes(ps[..i + 1]))
    ensures OnlyAdds(first, was[id := ps[i].code])
  {
    OneMoreCode(ps, i, "platform");
    hide Codes;
  }

  /** The loop over the permissions of the manifest. */
  method GrantDeclared(db: Database, ps: seq<PermissionDecl>, platform: nat, tenant: nat, ghost groups: set<string>)
    returns (ids: map<string, nat>, ok: bool)
    requires UniqueCodes(db.permissions) && PermissionsOk(groups, ps) && platform != tenant
    requires db.rolePermissions == {}
    modifies db`permissions, db`permissionSequence, db`rolePermissions
    ensures OnlyAdds(old(db.permissions), db.permissions)
    ensures ok ==> IdsOf(db.permissions, ids, Codes(ps))
    ensures ok ==> DeclaredGrants(ps, platform, tenant, db.permissions, db.rolePermissions)
    ensures old(db.PermissionsAhead()) ==> ok
  {
    ids := map[];
    for i := 0 to |ps|
      invariant old(db.PermissionsAhead()) ==> db.PermissionsAhead()
      invariant OnlyAdds(old(db.permissions), db.permissions)
      invariant IdsOf(db.permissions, ids, Codes(ps[..i]))
      invariant DeclaredGrants(ps[..i], platform, tenant, db.permissions, db.rolePermissions)
    {
      hide *;
      var p := ps[i];
      DeclarationFits(groups, ps, i, db.permissions, ids);
      ghost var was, rows := db.permissions, db.rolePermissions;
      var id := db.UpsertPermission(p.code);
      if id == None {
        return ids, false;
      }
      IdAdded(ps, i, old(db.permissions), was, ids, id.value);
      ids := ids[p.code := id.value];
      db.GrantRoles(p.roles, id.value, platform, tenant);
      DeclaredStep(ps, i, platform, tenant, was, rows, id.value, db.rolePermissions);
    }
    assert ps[..|ps|] == ps;
    ok := true;
  }

  lemma {:induction false} NoRowsYet(ps: seq<PermissionDecl>, platform: nat, tenant: nat, permissions: map<nat, string>,
                                     rows: set<(nat, nat)>, id: nat, code: string)
    requires DeclaredGrants(ps, platform, tenant, permissions, rows) && code !in Codes(ps)
    requires id in permissions ==> permissions[id] == code
    ensures forall x: nat :: (x, id) !in rows
  {
    assert code !in CodesFor(ps, "platform") && code !in CodesFor(ps, "tenant");
  }

  lemma {:induction false} DeclaredStep(ps: seq<PermissionDecl>, i: nat, platform: nat, tenant: nat,
                                        was: map<nat, string>, rows: set<(nat, nat)>, id: nat, now: set<(nat, nat)>)
    requires i < |ps| && platform != tenant && RolesOk(ps[i].roles) && ps[i].code !in Codes(ps[..i])
    requires DeclaredGrants(ps[..i], platform, tenant, was, rows)
    requires id in was ==> was[id] == ps[i].code
    requires UniqueCodes(was[id := ps[i].code])
    requires forall x: nat, q: nat :: (x, q) in now <==>
               (x, q) in rows || (q == id && exists r :: r in ps[i].roles && x == RoleFor(r, platform, tenant))
    ensures DeclaredGrants(ps[..i + 1], platform, tenant, was[id := ps[i].code], now)
  {
    NoRowsYet(ps[..i], platform, tenant, was, rows, id, ps[i].code);
    OneMoreCode(ps, i, "platform");
    OneMoreCode(ps, i, "tenant");
    assert ps[i].code !in CodesFor(ps[..i], "platform") && ps[i].code !in CodesFor(ps[..i], "tenant");
    hide Codes, CodesFor;
    var permissions := was[id := ps[i].code];
    forall x: nat, p: nat
      ensures (x, p) in now <==>
        && p in permissions
        && ((x == platform && permissions[p] in CodesFor(ps[..i + 1], "platform"))
            || (x == tenant && permissions[p] in CodesFor(ps[..i + 1], "tenant")))
    {
      if p != id {
        assert id in permissions && permissions[id] == ps[i].code;
        assert p in was ==> p in permissions && permissions[p] == was[p] && permissions[p] != ps[i].code;
      } else {
        assert RoleFor("platform", platform, tenant) == platform && RoleFor("tenant", platform, tenant) == tenant;
        assert (exists r :: r in ps[i].roles && x == RoleFor(r, platform, tenant)) <==>
               ((x == platform && "platform" in ps[i].roles) || (x == tenant && "tenant" in ps[i].roles));
      }
    }
  }

  /** The seed with the first n of its templates. */
  function UpTo(s: Seed, n: nat): Seed
    requires n <= |s.templates|
  {
    s.(templates := s.templates[..n])
  }

  /** New roles carry the codes of the first n templates, each code once. */
  ghost predicate NewRoles(s: Seed, n: nat, before: map<nat, Role>, now: map<nat, Role>)
    requires n <= |s.templates|
  {
    && (forall x :: x in before ==> x in now && now[x] == before[x])
    && forall x :: x in now && x !in before ==> exists k :: 0 <= k < n && s.templates[k].code == now[x].code
  }

  ghost predicate GrantRows(s: Seed, before: Access, now: Access, platform: nat, tenant: nat) {
    forall x: nat, p: nat :: (x, p) in now.rolePermissions <==>
      p in now.permissions && Granted(s, before, now, platform, tenant, x, now.permissions[p])
  }

  /** The loop over the role templates. */
  method AddTemplates(db: Database, s: Seed, ids: map<string, nat>, ghost before: Access, ghost platform: nat,
                      ghost tenant: nat)
    returns (ok: bool)
    requires TemplatesOk(s.permissions, s.templates) && IdsOf(db.permissions, ids, Codes(s.permissions))
    requires db.roles == before.roles && platform in db.roles && tenant in db.roles
    requires GrantRows(UpTo(s, 0), before, db.Now(), platform, tenant)
    modifies db`roles, db`roleSequence, db`rolePermissions
    ensures ok ==> NewRoles(s, |s.templates|, before.roles, db.roles)
    ensures ok ==> GrantRows(s, before, db.Now(), platform, tenant)
    ensures old(db.RolesAhead()) ==> ok
  {
    hide Codes, CodesFor;
    for i := 0 to |s.templates|
      invariant old(db.RolesAhead()) ==> db.RolesAhead()
      invariant NewRoles(s, i, before.roles, db.roles)
      invariant GrantRows(UpTo(s, i), before, db.Now(), platform, tenant)
    {
      var t := s.templates[i];
      assert TemplateOk(s.permissions, s.templates, i);
      ghost var was := db.Now();
      var id := db.InsertRole(t.code);
      if id == None {
        return false;
      }
      db.GrantAll(id.value, t.permissions, ids);
      TemplateStep(s, i, before, was, db.Now(), platform, tenant, ids, id.value);
    }
    assert UpTo(s, |s.templates|) == s;
    ok := true;
  }

  lemma {:induction false} TemplateStep(s: Seed, i: nat, before: Access, was: Access, now: Access, platform: nat,
                                        tenant: nat, ids: map<string, nat>, id: nat)
    requires i < |s.templates| && TemplateOk(s.permissions, s.templates, i)
    requires IdsOf(was.permissions, ids, Codes(s.permissions))
    requires platform in before.roles && tenant in before.roles
    requires NewRoles(s, i, before.roles, was.roles)
    requires GrantRows(UpTo(s, i), before, was, platform, tenant)
    requires id !in was.roles && now == was.(roles := was.roles[id := Role(0, s.templates[i].code)],
                                             rolePermissions := now.rolePermissions)
    requires forall x: nat, p: nat :: (x, p) in now.rolePermissions <==>
               (x, p) in was.rolePermissions || (x == id && exists c :: c in s.templates[i].permissions && ids[c] == p)
    ensures NewRoles(s, i + 1, before.roles, now.roles)
    ensures GrantRows(UpTo(s, i + 1), before, now, platform, tenant)
  {
    hide Codes, CodesFor;
    var t := s.templates[i];
    assert s.templates[..i + 1] == s.templates[..i] + [t];
    forall x: nat, p: nat
      ensures (x, p) in now.rolePermissions <==>
        p in now.permissions && Granted(UpTo(s, i + 1), before, now, platform, tenant, x, now.permissions[p])
    {
      if x == id {
        TemplateGrants(s, i, before, now, platform, tenant, ids, id, p);
      } else {
        OthersKeep(s, i, before, was, now, platform, tenant, id, x, p);
      }
    }
  }

  lemma {:induction false} TemplateGrants(s: Seed, i: nat, before: Access, now: Access, platform: nat, tenant: nat,
                                          ids: map<string, nat>, id: nat, p: nat)
    requires i < |s.templates| && TemplateOk(s.permissions, s.templates, i)
    requires IdsOf(now.permissions, ids, Codes(s.permissions))
    requires platform in before.roles && tenant in before.roles && id !in before.roles
    requires id in now.roles && now.roles[id].code == s.templates[i].code
    ensures (exists c :: c in s.templates[i].permissions && ids[c] == p) <==>
      p in now.permissions && Granted(UpTo(s, i + 1), before, now, platform, tenant, id, now.permissions[p])
  {
    var t, all := s.templates[i], s.templates[..i + 1];
    assert all == s.templates[..i] + [t] && t in all;
    forall u | u in all && u.code == t.code ensures u == t {
      assert t.code !in TemplateCodes(s.templates[..i]);
    }
    assert GrantsOk(s.permissions, t);
    hide Codes, CodesFor;
  }

  lemma {:induction false} OthersKeep(s: Seed, i: nat, before: Access, was: Access, now: Access, platform: nat,
                                      tenant: nat, id: nat, x: nat, p: nat)
    requires i < |s.templates| && TemplateOk(s.permissions, s.templates, i)
    requires NewRoles(s, i, before.roles, was.roles) && x != id && id !in was.roles
    requires now.roles == was.roles[id := Role(0, s.templates[i].code)] && now.permissions == was.permissions
    ensures p in now.permissions ==>
      (Granted(UpTo(s, i + 1), before, now, platform, tenant, x, now.permissions[p]) <==>
       Granted(UpTo(s, i), before, was, platform, tenant, x, was.permissions[p]))
  {
    hide Codes, CodesFor;
    var t := s.templates[i];
    assert s.templates[..i + 1] == s.templates[..i] + [t];
    if x in now.roles && x !in before.roles {
      var k :| 0 <= k < i && s.templates[k].code == now.roles[x].code;
      assert s.templates[..i][k] in s.templates[..i];
      assert s.templates[k].code in TemplateCodes(s.templates[..i]);
    }
  }

  /** Row apiIds[k] is the row picked for route k. */
  ghost predicate Picked(apis: Rows, rs: seq<Route>, apiIds: seq<nat>) {
    |apiIds| <= |rs| && forall k :: 0 <= k < |apiIds| ==> apiIds[k] in apis && IsRowOf(apis[apiIds[k]], rs[k])
  }

  ghost predicate LinkedBy(rs: seq<Route>, apiIds: seq<nat>, ids: map<string, nat>, p: nat, a: nat) {
    exists k :: 0 <= k < |apiIds| && k < |rs| && apiIds[k] == a && NamesId(rs[k].permissions, ids, p)
  }

  ghost predicate NamesId(codes: seq<string>, ids: map<string, nat>, p: nat) {
    exists c :: c in codes && c in ids && ids[c] == p
  }

  ghost predicate CodesKnown(s: Seed, ids: map<string, nat>) {
    forall k, c :: 0 <= k < |s.routes| && c in s.routes[k].permissions ==> c in ids
  }

  ghost predicate HasActiveRow(apis: Rows, r: Route) {
    exists a :: a in apis && apis[a].status == "ON" && IsRowOf(apis[a], r)
  }

  /** The loop over the routes. */
  method LinkRoutes(db: Database, s: Seed, ids: map<string, nat>) returns (ok: bool, ghost apiIds: seq<nat>)
    requires db.permissionApis == {} && CodesKnown(s, ids)
    modifies db`permissionApis
    ensures ok ==> |apiIds| == |s.routes| && Picked(db.apis, s.routes, apiIds)
    ensures ok ==> forall p: nat, a: nat :: (p, a) in db.permissionApis <==> LinkedBy(s.routes, apiIds, ids, p, a)
    ensures !ok ==> exists r :: r in s.routes && !HasActiveRow(db.apis, r)
  {
    apiIds := [];
    for i := 0 to |s.routes|
      invariant |apiIds| == i && Picked(db.apis, s.routes, apiIds)
      invariant forall p: nat, a: nat :: (p, a) in db.permissionApis <==> LinkedBy(s.routes, apiIds, ids, p, a)
    {
      var r := s.routes[i];
      var id := db.SelectApi(r);
      if id == None {
        assert r in s.routes && !HasActiveRow(db.apis, r);
        return false, apiIds;
      }
      db.LinkAll(id.value, r.permissions, ids);
      LinkStep(s.routes, apiIds, ids, id.value);
      apiIds := apiIds + [id.value];
    }
    ok := true;
  }

  lemma {:induction false} LinkStep(rs: seq<Route>, apiIds: seq<nat>, ids: map<string, nat>, id: nat)
    requires |apiIds| < |rs| && forall c :: c in rs[|apiIds|].permissions ==> c in ids
    ensures forall p: nat, a: nat :: LinkedBy(rs, apiIds + [id], ids, p, a) <==>
              LinkedBy(rs, apiIds, ids, p, a)
              || (a == id && exists c :: c in rs[|apiIds|].permissions && ids[c] == p)
  {
    var i, more := |apiIds|, apiIds + [id];
    forall p: nat, a: nat
      ensures LinkedBy(rs, more, ids, p, a) <==>
              LinkedBy(rs, apiIds, ids, p, a) || (a == id && exists c :: c in rs[i].permissions && ids[c] == p)
    {
      if LinkedBy(rs, apiIds, ids, p, a) {
        var k :| 0 <= k < |apiIds| && k < |rs| && apiIds[k] == a && NamesId(rs[k].permissions, ids, p);
        assert more[k] == a;
      }
      if a == id && exists c :: c in rs[i].permissions && ids[c] == p {
        assert more[i] == a && NamesId(rs[i].permissions, ids, p);
      }
    }
  }

  lemma {:induction false} PickedDiffer(apis: Rows, rs: seq<Route>, apiIds: seq<nat>, j: nat, k: nat)
    requires Picked(apis, rs, apiIds) && NoRepeats(RouteKeys(rs))
    requires j < |apiIds| && k < |rs| && IsRowOf(apis[apiIds[j]], rs[k])
    ensures j == k
  {
    assert RouteKeys(rs)[j] == RouteKey(rs[j]) && RouteKeys(rs)[k] == RouteKey(rs[k]);
  }

  function IdSet(ids: seq<nat>): set<nat> {
    set a | a in ids
  }

  lemma {:induction false} OneMoreId(ids: seq<nat>, id: nat)
    requires |IdSet(ids)| == |ids| && id !in ids
    ensures IdSet(ids + [id]) == IdSet(ids) + {id} && |IdSet(ids + [id])| == |ids| + 1
  {
    assert IdSet(ids + [id]) == IdSet(ids) + {id};
  }

  lemma {:induction false} PickedCount(apis: Rows, rs: seq<Route>, apiIds: seq<nat>)
    requires Picked(apis, rs, apiIds) && NoRepeats(RouteKeys(rs))
    ensures |IdSet(apiIds)| == |apiIds| && IdSet(apiIds) <= apis.Keys
  {
    if apiIds != [] {
      var last := |apiIds| - 1;
      PickedCount(apis, rs, apiIds[..last]);
      assert apiIds == apiIds[..last] + [apiIds[last]];
      forall k | 0 <= k < last ensures apiIds[k] != apiIds[last] {
        if apiIds[k] == apiIds[last] {
          PickedDiffer(apis, rs, apiIds, k, last);
        }
      }
      OneMoreId(apiIds[..last], apiIds[last]);
    }
  }

  lemma {:induction false} Same<T>(a: set<T>, b: set<T>)
    requires a <= b && |a| == |b|
    ensures a == b
  {
    assert b == a + (b - a) && a !! (b - a);
    assert |b| == |a| + |b - a|;
  }

  /** As many rows as routes, and a row for each route: then every row is the row of one route. */
  lemma {:induction false} EveryRowPicked(apis: Rows, rs: seq<Route>, apiIds: seq<nat>, a: nat)
    returns (k: nat)
    requires Picked(apis, rs, apiIds) && NoRepeats(RouteKeys(rs))
    requires |apiIds| == |rs| == |apis| && a in apis
    ensures k < |rs| && apiIds[k] == a && IsRowOf(apis[a], rs[k])
  {
    PickedCount(apis, rs, apiIds);
    assert |apis| == |apis.Keys|;
    Same(IdSet(apiIds), apis.Keys);
    assert a in apiIds;
    k :| 0 <= k < |apiIds| && apiIds[k] == a;
  }

  lemma {:induction false} LinksAre(s: Seed, apis: Rows, apiIds: seq<nat>, permissions: map<nat, string>,
                                    ids: map<string, nat>, p: nat, a: nat)
    requires Picked(apis, s.routes, apiIds) && NoRepeats(RouteKeys(s.routes))
    requires |apiIds| == |s.routes| == |apis|
    requires IdsOf(permissions, ids, Codes(s.permissions)) && CodesKnown(s, ids)
    ensures LinkedBy(s.routes, apiIds, ids, p, a) <==>
              p in permissions && a in apis && Links(s, apis[a], permissions[p])
  {
    hide Codes;
    if a in apis && p in permissions && Links(s, apis[a], permissions[p]) {
      var r :| r in s.routes && IsRowOf(apis[a], r) && permissions[p] in r.permissions;
      var k :| 0 <= k < |s.routes| && s.routes[k] == r;
      var j := EveryRowPicked(apis, s.routes, apiIds, a);
      PickedDiffer(apis, s.routes, apiIds, j, k);
      assert NamesId(r.permissions, ids, p) by {
        assert permissions[p] in ids;
      }
    }
    if LinkedBy(s.routes, apiIds, ids, p, a) {
      var k :| 0 <= k < |apiIds| && k < |s.routes| && apiIds[k] == a && NamesId(s.routes[k].permissions, ids, p);
      assert s.routes[k] in s.routes;
    }
  }

  lemma {:induction false} ApiRowsHold(s: Seed, before: Access, now: Access, apiIds: seq<nat>, ids: map<string, nat>)
    requires now.apis == before.apis
    requires Picked(now.apis, s.routes, apiIds) && NoRepeats(RouteKeys(s.routes))
    requires |apiIds| == |s.routes| == |now.apis|
    requires IdsOf(now.permissions, ids, Codes(s.permissions)) && CodesKnown(s, ids)
    requires forall p: nat, a: nat :: (p, a) in now.permissionApis <==> LinkedBy(s.routes, apiIds, ids, p, a)
    ensures ApiRows(s, before, now)
  {
    hide Codes;
    forall a | a in now.apis ensures exists r :: r in s.routes && IsRowOf(now.apis[a], r) {
      var k := EveryRowPicked(now.apis, s.routes, apiIds, a);
      assert s.routes[k] in s.routes;
    }
    forall p: nat, a: nat
      ensures (p, a) in now.permissionApis <==>
        p in now.permissions && a in now.apis && Links(s, now.apis[a], now.permissions[p])
    {
      LinksAre(s, now.apis, apiIds, now.permissions, ids, p, a);
    }
  }

  lemma {:induction false} ValidFacts(resolver: Resolver, catalog: seq<API>, routeCount: nat, s: Seed)
    requires ValidSeed(resolver, catalog, routeCount, s)
    ensures NoRepeats(RouteKeys(s.routes))
    ensures forall k, c :: 0 <= k < |s.routes| && c in s.routes[k].permissions ==> c in Codes(s.permissions)
  {
    hide Codes, ScopeOk;
    var keys := RouteKeys(s.routes + s.excluded);
    assert forall k :: 0 <= k < |s.routes| ==> RouteKeys(s.routes)[k] == keys[k];
    forall k, c | 0 <= k < |s.routes| && c in s.routes[k].permissions ensures c in Codes(s.permissions) {
      assert RouteOk(resolver, catalog, s.permissions, s.routes[k]);
    }
  }

  ghost predicate HasRole(roles: map<nat, Role>, code: string) {
    exists x :: x in roles && roles[x] == Role(0, code)
  }

  /** apply, for a manifest that validate accepted. It fails for the reasons named: another number of
      interfaces, a missing role, an id that is in use, a route without an active interface. */
  method Apply(db: Database, s: Seed, ghost resolver: Resolver, ghost catalog: seq<API>, ghost routeCount: nat)
    returns (r: Result<(), SeedError>)
    requires ValidSeed(resolver, catalog, routeCount, s) && UniqueCodes(db.permissions)
    modifies db
    ensures r.Ok? ==> Applied(s, old(db.Now()), db.Now())
    ensures r == Err(WrongApiCount) <==> |old(db.apis)| != |s.routes|
    ensures r == Err(WrongApiCount) ==> db.Now() == old(db.Now())
    ensures r == Err(NoRole) <==>
      |old(db.apis)| == |s.routes| && !(HasRole(old(db.roles), PLATFORM_ROLE) && HasRole(old(db.roles), TENANT_ROLE))
    ensures r == Err(NoApi) ==> exists route :: route in s.routes && !HasActiveRow(old(db.apis), route)
    ensures r == Err(IdTaken) ==> !(old(db.PermissionsAhead()) && old(db.RolesAhead()))
    ensures && |old(db.apis)| == |s.routes| && (forall route :: route in s.routes ==> HasActiveRow(old(db.apis), route))
            && HasRole(old(db.roles), PLATFORM_ROLE) && HasRole(old(db.roles), TENANT_ROLE)
            && old(db.PermissionsAhead()) && old(db.RolesAhead()) ==>
      r.Ok?
  {
    hide Codes, CodesFor, Resolve, IdsOf, GrantRows, TemplatesOk, RoutesOk, PermissionsOk, Applied, HasActiveRow;
    ghost var before := db.Now();
    ValidFacts(resolver, catalog, routeCount, s);
    if |db.apis| != |s.routes| {
      return Err(WrongApiCount);
    }
    db.rolePermissions := {};
    db.permissionApis := {};
    var platform := db.SelectRole(PLATFORM_ROLE);
    var tenant := db.SelectRole(TENANT_ROLE);
    if platform == None || tenant == None {
      return Err(NoRole);
    }
    var ids, granted := GrantDeclared(db, s.permissions, platform.value, tenant.value, Keys(s.groups));
    if !granted {
      return Err(IdTaken);
    }
    FirstGrants(s, before, db.Now(), platform.value, tenant.value);
    var added := AddTemplates(db, s, ids, before, platform.value, tenant.value);
    if !added {
      return Err(IdTaken);
    }
    KnownCodes(s, db.permissions, ids);
    ghost var was := db.Now();
    var linked, apiIds := LinkRoutes(db, s, ids);
    if !linked {
      return Err(NoApi);
    }
    ApiRowsHold(s, before, db.Now(), apiIds, ids);
    SameGrants(s, before, was, db.Now(), platform.value, tenant.value);
    AppliedHolds(s, before, db.Now(), platform.value, tenant.value, ids);
    r := Ok(());
  }

  lemma {:induction false} FirstGrants(s: Seed, before: Access, now: Access, platform: nat, tenant: nat)
    requires DeclaredGrants(s.permissions, platform, tenant, now.permissions, now.rolePermissions)
    ensures GrantRows(UpTo(s, 0), before, now, platform, tenant)
  {
    hide CodesFor;
  }

  lemma {:induction false} SameGrants(s: Seed, before: Access, was: Access, now: Access, platform: nat, tenant: nat)
    requires GrantRows(s, before, was, platform, tenant) && now == was.(permissionApis := now.permissionApis)
    ensures GrantRows(s, before, now, platform, tenant)
  {
    hide CodesFor;
  }

  lemma {:induction false} KnownCodes(s: Seed, permissions: map<nat, string>, ids: map<string, nat>)
    requires IdsOf(permissions, ids, Codes(s.permissions))
    requires forall k, c :: 0 <= k < |s.routes| && c in s.routes[k].permissions ==> c in Codes(s.permissions)
    ensures CodesKnown(s, ids)
  {
  }

  lemma {:induction false} AppliedHolds(s: Seed, before: Access, now: Access, platform: nat, tenant: nat,
                                        ids: map<string, nat>)
    requires platform in before.roles && before.roles[platform] == Role(0, PLATFORM_ROLE)
    requires tenant in before.roles && before.roles[tenant] == Role(0, TENANT_ROLE)
    requires IdsOf(now.permissions, ids, Codes(s.permissions)) && OnlyAdds(before.permissions, now.permissions)
    requires NewRoles(s, |s.templates|, before.roles, now.roles) && GrantRows(s, before, now, platform, tenant)
    requires ApiRows(s, before, now)
    ensures Applied(s, before, now)
  {
    hide Codes, CodesFor, ApiRows, Granted;
    assert RoleRows(s, before, now, platform, tenant);
  }

  // ---------- validate, catalogForInit, SyncAPIs and apply together ----------

  function KeysOfRows(rows: Rows): set<string> {
    set i | i in rows :: KeyOf(rows[i].api)
  }

  lemma {:induction false} RowCount(rows: Rows)
    requires DistinctKeys(rows)
    ensures |rows| == |KeysOfRows(rows)|
    decreases |rows|
  {
    hide KeyOf;
    if rows != map[] {
      var i :| i in rows;
      var rest := rows - {i};
      RowCount(rest);
      RowKeyIsNew(rows, i);
      assert rows.Keys == rest.Keys + {i};
      hide *;
      assert |KeysOfRows(rest) + {KeyOf(rows[i].api)}| == |KeysOfRows(rest)| + 1;
    }
  }

  lemma {:induction false} RowKeyIsNew(rows: Rows, i: nat)
    requires i in rows && DistinctKeys(rows)
    ensures KeysOfRows(rows) == KeysOfRows(rows - {i}) + {KeyOf(rows[i].api)}
    ensures KeyOf(rows[i].api) !in KeysOfRows(rows - {i})
  {
    hide KeyOf;
    forall j | j in rows ensures KeyOf(rows[j].api) in KeysOfRows(rows - {i}) + {KeyOf(rows[i].api)} {
      assert j != i ==> j in rows - {i} && (rows - {i})[j] == rows[j];
    }
  }

  /** After SyncAPIs has put the installed catalogue into an empty table, the count that apply checks
      is right and every route finds its row: apply cannot fail on the interfaces. */
  lemma {:induction false} FreshTableFits(resolver: Resolver, catalog: seq<API>, s: Seed, apis: Rows)
    requires RoutesOk(resolver, catalog, s)
    requires Synced(Selected(catalog, RouteKeySet(s.routes)), map[], apis)
    requires (forall a :: a in catalog ==> ' ' !in a.verb) && forall r :: r in s.routes ==> ' ' !in r.verb
    ensures |apis| == |s.routes|
    ensures forall r :: r in s.routes ==> HasActiveRow(apis, r)
  {
    var allowed := RouteKeySet(s.routes);
    var installed := Selected(catalog, allowed);
    OneInterfacePerRoute(resolver, catalog, s);
    RowCount(apis);
    hide RoutesOk, RouteKeySet, Selected;
    forall k | k in CatalogKeys(installed) ensures k in KeysOfRows(apis) {
      var a :| a in installed && KeyOf(a) == k;
      assert HasRow(apis, a);
    }
    assert KeysOfRows(apis) == CatalogKeys(installed);
    SelectedDistinct(catalog, allowed) by {
      DistinctFromRoutes(resolver, catalog, s);
    }
    forall r | r in s.routes ensures HasActiveRow(apis, r) {
      InstalledRow(catalog, s, apis, r);
    }
  }

  lemma {:induction false} DistinctFromRoutes(resolver: Resolver, catalog: seq<API>, s: Seed)
    requires RoutesOk(resolver, catalog, s)
    ensures CatalogDistinct(catalog)
  {
  }

  lemma {:induction false} InstalledRow(catalog: seq<API>, s: Seed, apis: Rows, r: Route)
    requires Synced(Selected(catalog, RouteKeySet(s.routes)), map[], apis) && r in s.routes
    requires CatalogKeys(Selected(catalog, RouteKeySet(s.routes))) == RouteKeySet(s.routes)
    requires (forall a :: a in catalog ==> ' ' !in a.verb) && ' ' !in r.verb
    ensures HasActiveRow(apis, r)
  {
    var installed := Selected(catalog, RouteKeySet(s.routes));
    hide Selected;
    assert RouteKey(r) in CatalogKeys(installed);
    var a :| a in installed && KeyOf(a) == RouteKey(r);
    SelectedEntries(catalog, RouteKeySet(s.routes), a);
    KeyInjective(a, API(r.path, r.verb, "", "", "", "", ""));
    assert HasRow(apis, a);
    var i :| i in apis && apis[i].api == a;
  }
}
