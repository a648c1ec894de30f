/** The release manifest of a fresh installation: sql/bootstrap/initial_seed.go, the check
    (validate), the catalogue it installs (catalogForInit) and the access rows it writes (apply). */
module InitialSeed {
  import opened Basics
  import opened Permcode
  import opened ApiCatalog

  // ---------- The manifest ----------

  datatype Group = Group(key: string, name: string, module_: string, parent: string)

  datatype PermissionDecl = PermissionDecl(code: string, name: string, group: string, roles: seq<string>)

  datatype Route = Route(verb: string, path: string, operation: string, module_: string, authentication: string,
                         permissions: seq<string>)

  datatype Menu = Menu(key: string, name: string, path: string, module_: string, client: string, parent: string,
                       permissions: seq<string>)

  datatype Template = Template(code: string, name: string, scope: string, description: string, templateFor: string,
                               permissions: seq<string>)

  datatype Seed = Seed(version: string, groups: seq<Group>, permissions: seq<PermissionDecl>, routes: seq<Route>,
                       excluded: seq<Route>, menus: seq<Menu>, modules: seq<string>, templates: seq<Template>)

  function RouteKey(r: Route): string {
    r.verb + " " + r.path
  }

  const TEMPLATE_SCOPES: map<string, string> := map[
    "template:platform:operator" := "PLATFORM",
    "template:tenant:developer" := "TENANT",
    "template:tenant:viewer" := "TENANT"]

  const PLATFORM_ROLE := "platform:admin"
  const TENANT_ROLE := "template:tenant:manager"

  /** The routes that authenticate on their own and need no permission. */
  const INDEPENDENT: set<string> := {
    "GET /api/v1/auth/captcha", "POST /api/v1/auth/captcha/verify",
    "POST /api/v1/auth/csrf", "POST /api/v1/auth/forgot-password",
    "POST /api/v1/auth/invitations/accept", "POST /api/v1/auth/mfa/verify",
    "POST /api/v1/auth/password/login", "POST /api/v1/auth/platform/password/login",
    "POST /api/v1/auth/refresh", "POST /api/v1/auth/reset-password-by-code"}

  // ---------- What a valid manifest is ----------

  predicate CodeStart(c: char) {
    'a' <= c <= 'z'
  }

  predicate CodeChar(c: char) {
    CodeStart(c) || IsDigit(c) || c == '_' || c == '-'
  }

  /** Words of code characters with colons between; start says that a word has to begin here. */
  predicate Scans(s: string, start: bool) {
    if s == "" then !start
    else if start then CodeStart(s[0]) && Scans(s[1..], false)
    else if s[0] == ':' then Scans(s[1..], true)
    else CodeChar(s[0]) && Scans(s[1..], false)
  }

  predicate IsCode(s: string) {
    ':' in s && Scans(s, true)
  }

  predicate IsTail(w: string) {
    forall i :: 0 <= i < |w| ==> 'a' <= w[i] <= 'z' || '0' <= w[i] <= '9' || w[i] == '_' || w[i] == '-'
  }

  /** A lower-case letter, then lower-case letters, digits, underscores and dashes. */
  predicate IsCodeWord(w: string) {
    w != "" && 'a' <= w[0] <= 'z' && IsTail(w[1..])
  }

  predicate AllCodeWords(ws: seq<string>) {
    forall i :: 0 <= i < |ws| ==> IsCodeWord(ws[i])
  }

  /** A code is two or more such words, joined by colons. */
  lemma {:induction false} CodeIff(s: string)
    ensures IsCode(s) <==> exists ws :: |ws| >= 2 && AllCodeWords(ws) && s == Join(ws, ":")
  {
    if IsCode(s) {
      var w, ws := Splits(s, true);
      assert s == Join([w] + ws, ":") by {
        assert ([w] + ws)[1..] == ws;
      }
    }
    if ws :| |ws| >= 2 && AllCodeWords(ws) && s == Join(ws, ":") {
      JoinScans(ws);
      assert s[|ws[0]|] == ':';
    }
  }

  /** A word, or the rest of one, and the words after it. */
  function Words(w: string, ws: seq<string>): string {
    if ws == [] then w else w + (":" + Join(ws, ":"))
  }

  lemma {:induction false} Splits(s: string, start: bool) returns (w: string, ws: seq<string>)
    requires Scans(s, start)
    ensures IsTail(w) && (start ==> IsCodeWord(w)) && AllCodeWords(ws)
    ensures s == Words(w, ws) && (':' in s ==> ws != [])
  {
    if s == "" {
      w, ws := "", [];
    } else if !start && s[0] == ':' {
      var v, vs := Splits(s[1..], true);
      w, ws := "", [v] + vs;
      FrontWord(v, vs);
      hide *;
      assert s == [':'] + s[1..];
    } else {
      var v, vs := Splits(s[1..], false);
      w, ws := [s[0]] + v, vs;
      LetterBefore(s[0], v, vs);
      assert s == [s[0]] + s[1..];
      hide Join;
    }
  }

  lemma {:induction false} FrontWord(v: string, vs: seq<string>)
    requires IsCodeWord(v) && AllCodeWords(vs)
    ensures AllCodeWords([v] + vs) && Words("", [v] + vs) == ":" + Words(v, vs)
  {
    assert ([v] + vs)[1..] == vs;
    hide IsCodeWord;
    var rest := Words(v, vs);
    assert Join([v] + vs, ":") == rest;
    assert "" + (":" + rest) == ":" + rest;
  }

  lemma {:induction false} LetterBefore(c: char, v: string, vs: seq<string>)
    requires CodeChar(c) && IsTail(v)
    ensures IsTail([c] + v) && Words([c] + v, vs) == [c] + Words(v, vs)
    ensures CodeStart(c) ==> IsCodeWord([c] + v)
  {
    assert ([c] + v)[1..] == v;
    hide Join;
    if vs != [] {
      Reassociate([c], v, ":" + Join(vs, ":"));
    }
  }

  lemma {:induction false} WordScans(w: string, rest: string, start: bool)
    requires if start then IsCodeWord(w) else IsTail(w)
    requires Scans(rest, false)
    ensures Scans(w + rest, start)
  {
    if w == "" {
      assert w + rest == rest;
    } else {
      assert (w + rest)[1..] == w[1..] + rest;
      WordScans(w[1..], rest, false);
    }
  }

  lemma {:induction false} JoinScans(ws: seq<string>)
    requires ws != [] && AllCodeWords(ws)
    ensures Scans(Join(ws, ":"), true)
  {
    if |ws| == 1 {
      WordScans(ws[0], "", true);
      assert ws[0] + "" == ws[0];
    } else {
      JoinScans(ws[1..]);
      var rest := Join(ws[1..], ":");
      assert (":" + rest)[1..] == rest;
      WordScans(ws[0], ":" + rest, true);
    }
  }

  ghost predicate NoRepeats<T(!new)>(s: seq<T>) {
    forall i, j :: 0 <= i < j < |s| ==> s[i] != s[j]
  }

  function Keys(gs: seq<Group>): set<string> {
    set g | g in gs :: g.key
  }

  ghost predicate GroupOk(gs: seq<Group>, i: nat)
    requires i < |gs|
  {
    var g := gs[i];
    g.key != "" && g.name != "" && g.key !in Keys(gs[..i]) && (g.parent == "" || g.parent in Keys(gs[..i]))
  }

  ghost predicate GroupsOk(gs: seq<Group>) {
    forall i :: 0 <= i < |gs| ==> GroupOk(gs, i)
  }

  function Codes(ps: seq<PermissionDecl>): set<string> {
    set p | p in ps :: p.code
  }

  /** The codes granted to a role alias. */
  function CodesFor(ps: seq<PermissionDecl>, role: string): set<string> {
    set p | p in ps && role in p.roles :: p.code
  }

  ghost predicate RolesOk(roles: seq<string>) {
    NoRepeats(roles) && forall r :: r in roles ==> r == "platform" || r == "tenant"
  }

  ghost predicate PermissionOk(groups: set<string>, ps: seq<PermissionDecl>, i: nat)
    requires i < |ps|
  {
    var p := ps[i];
    && IsCode(p.code) && p.code !in Codes(ps[..i]) && p.group in groups && p.name != "" && p.roles != []
    && RolesOk(p.roles)
  }

  ghost predicate PermissionsOk(groups: set<string>, ps: seq<PermissionDecl>) {
    forall i :: 0 <= i < |ps| ==> PermissionOk(groups, ps, i)
  }

  function TemplateCodes(ts: seq<Template>): set<string> {
    set t | t in ts :: t.code
  }

  ghost predicate GrantsOk(ps: seq<PermissionDecl>, t: Template) {
    && t.permissions != [] && NoRepeats(t.permissions)
    && forall c :: c in t.permissions ==>
         && c in Codes(ps)
         && (t.scope == "TENANT" ==> c in CodesFor(ps, "tenant"))
         && (t.scope == "PLATFORM" ==> c in CodesFor(ps, "platform"))
  }

  ghost predicate TemplateOk(ps: seq<PermissionDecl>, ts: seq<Template>, i: nat)
    requires i < |ts|
  {
    var t := ts[i];
    && t.code in TEMPLATE_SCOPES && t.name != "" && t.description != "" && TEMPLATE_SCOPES[t.code] == t.scope
    && t.code !in TemplateCodes(ts[..i]) && "template:" + t.templateFor == t.code
    && GrantsOk(ps, t)
  }

  ghost predicate TemplatesOk(ps: seq<PermissionDecl>, ts: seq<Template>) {
    |ts| == 3 && forall i :: 0 <= i < |ts| ==> TemplateOk(ps, ts, i)
  }

  /** The route is in the catalogue as the manifest describes it. */
  ghost predicate InCatalog(catalog: seq<API>, r: Route) {
    exists a :: a in catalog && KeyOf(a) == RouteKey(r) && a.operation == r.operation && a.businessModule == r.module_
  }

  ghost predicate AuthenticationOk(r: Route) {
    if r.permissions == [] then r.authentication == "independent" && RouteKey(r) in INDEPENDENT
    else r.authentication == ""
  }

  ghost predicate ScopeOk(resolver: Resolver, ps: seq<PermissionDecl>, r: Route) {
    match Resolve(resolver, r.verb, r.path)
    case Ok(e) =>
      && e.entry.code in r.permissions
      && (e.entry.scopeKind == "platform" ==> forall c :: c in r.permissions ==> c !in CodesFor(ps, "tenant"))
    case Err(e) => !e.ConflictError?
  }

  ghost predicate RouteOk(resolver: Resolver, catalog: seq<API>, ps: seq<PermissionDecl>, r: Route) {
    && InCatalog(catalog, r) && AuthenticationOk(r)
    && NoRepeats(r.permissions) && (forall c :: c in r.permissions ==> c in Codes(ps))
    && ScopeOk(resolver, ps, r)
  }

  ghost predicate ExcludedOk(catalog: seq<API>, r: Route) {
    && (exists a :: a in catalog && KeyOf(a) == RouteKey(r) && a.operation == r.operation
                    && a.businessModule == r.module_ && a.module_ == "VMImageService")
    && r.permissions == [] && r.authentication == ""
  }

  function RouteKeys(rs: seq<Route>): seq<string> {
    seq(|rs|, i requires 0 <= i < |rs| => RouteKey(rs[i]))
  }

  ghost predicate RoutesOk(resolver: Resolver, catalog: seq<API>, s: Seed) {
    && CatalogDistinct(catalog)
    && NoRepeats(RouteKeys(s.routes + s.excluded))
    && (forall r :: r in s.routes ==> RouteOk(resolver, catalog, s.permissions, r))
    && (forall r :: r in s.excluded ==> ExcludedOk(catalog, r))
    && |catalog| == |s.routes| + |s.excluded|
  }

  function MenuKeys(ms: seq<Menu>): set<string> {
    set m | m in ms :: m.key
  }

  ghost predicate MenuOk(s: Seed, i: nat)
    requires i < |s.menus|
  {
    var m := s.menus[i];
    && m.key != "" && m.key !in MenuKeys(s.menus[..i]) && m.name != "" && m.path != ""
    && (m.client == "console" || m.client == "boss")
    && (m.parent == "" || m.parent in MenuKeys(s.menus[..i])) && (m.module_ == "" || m.module_ in s.modules)
    && m.permissions != [] && forall c :: c in m.permissions ==> c in Codes(s.permissions)
  }

  ghost predicate MenusOk(s: Seed) {
    && NoRepeats(s.modules) && "" !in s.modules
    && forall i :: 0 <= i < |s.menus| ==> MenuOk(s, i)
  }

  /** routeCount is the number of routes of the release. */
  ghost predicate ValidSeed(resolver: Resolver, catalog: seq<API>, routeCount: nat, s: Seed) {
    && s.version == "console-boss-v1" && |s.routes| == routeCount
    && GroupsOk(s.groups) && PermissionsOk(Keys(s.groups), s.permissions)
    && TemplatesOk(s.permissions, s.templates)
    && RoutesOk(resolver, catalog, s) && MenusOk(s)
  }

  // ---------- validate ----------

  method CheckGroups(gs: seq<Group>) returns (groups: set<string>, ok: bool)
    ensures ok <==> GroupsOk(gs)
    ensures ok ==> groups == Keys(gs)
  {
    groups := {};
    for i := 0 to |gs|
      invariant groups == Keys(gs[..i]) && forall k :: 0 <= k < i ==> GroupOk(gs, k)
    {
      var g := gs[i];
      if g.key == "" || g.name == "" || g.key in groups || (g.parent != "" && g.parent !in groups) {
        assert !GroupOk(gs, i);
        return groups, false;
      }
      assert gs[..i + 1] == gs[..i] + [g];
      groups := groups + {g.key};
    }
    assert gs[..|gs|] == gs;
    ok := true;
  }

  method CheckRoles(rs: seq<string>) returns (roles: set<string>, ok: bool)
    ensures ok <==> RolesOk(rs)
    ensures ok ==> forall r :: r in roles <==> r in rs
  {
    roles := {};
    for i := 0 to |rs|
      invariant RolesOk(rs[..i]) && forall r :: r in roles <==> r in rs[..i]
    {
      assert rs[..i + 1] == rs[..i] + [rs[i]];
      if (rs[i] != "platform" && rs[i] != "tenant") || rs[i] in roles {
        assert rs[i] in rs;
        if rs[i] in rs[..i] {
          var k :| 0 <= k < i && rs[..i][k] == rs[i];
          assert rs[k] == rs[i];
        }
        return roles, false;
      }
      roles := roles + {rs[i]};
    }
    assert rs[..|rs|] == rs;
    ok := true;
  }

  lemma {:induction false} OneMoreCode(ps: seq<PermissionDecl>, i: nat, role: string)
    requires i < |ps|
    ensures Codes(ps[..i + 1]) == Codes(ps[..i]) + {ps[i].code}
    ensures CodesFor(ps[..i + 1], role) == CodesFor(ps[..i], role) + if role in ps[i].roles then {ps[i].code} else {}
  {
    assert ps[..i + 1] == ps[..i] + [ps[i]];
  }

  method CheckPermissions(groups: set<string>, ps: seq<PermissionDecl>)
    returns (codes: set<string>, tenantCodes: set<string>, platformCodes: set<string>, ok: bool)
    ensures ok <==> PermissionsOk(groups, ps)
    ensures ok ==>
      codes == Codes(ps) && tenantCodes == CodesFor(ps, "tenant") && platformCodes == CodesFor(ps, "platform")
  {
    codes, tenantCodes, platformCodes := {}, {}, {};
    for i := 0 to |ps|
      invariant codes == Codes(ps[..i]) && tenantCodes == CodesFor(ps[..i], "tenant")
      invariant platformCodes == CodesFor(ps[..i], "platform")
      invariant forall k :: 0 <= k < i ==> PermissionOk(groups, ps, k)
    {
      hide IsCode, RolesOk, Codes, CodesFor;
      var p := ps[i];
      if !IsCode(p.code) || p.code in codes || p.group !in groups || p.name == "" || |p.roles| == 0 {
        assert !PermissionOk(groups, ps, i);
        return codes, tenantCodes, platformCodes, false;
      }
      var roles, rolesOk := CheckRoles(p.roles);
      if !rolesOk {
        assert !PermissionOk(groups, ps, i);
        return codes, tenantCodes, platformCodes, false;
      }
      OneMoreCode(ps, i, "tenant");
      OneMoreCode(ps, i, "platform");
      codes := codes + {p.code};
      if "tenant" in roles {
        tenantCodes := tenantCodes + {p.code};
      }
      if "platform" in roles {
        platformCodes := platformCodes + {p.code};
      }
    }
    assert ps[..|ps|] == ps;
    ok := true;
  }

  /** The loops over a list of codes: none twice, and all among those that may stand there. */
  method CheckCodes(cs: seq<string>, allowed: set<string>) returns (seen: set<string>, ok: bool)
    ensures ok <==> NoRepeats(cs) && forall c :: c in cs ==> c in allowed
    ensures ok ==> forall c :: c in seen <==> c in cs
  {
    seen := {};
    for i := 0 to |cs|
      invariant NoRepeats(cs[..i]) && forall c :: c in cs[..i] ==> c in allowed
      invariant forall c :: c in seen <==> c in cs[..i]
    {
      assert cs[..i + 1] == cs[..i] + [cs[i]];
      if cs[i] !in allowed || cs[i] in seen {
        assert cs[i] in cs;
        if cs[i] in cs[..i] {
          var k :| 0 <= k < i && cs[..i][k] == cs[i];
          assert cs[k] == cs[i];
        }
        return seen, false;
      }
      seen := seen + {cs[i]};
    }
    assert cs[..|cs|] == cs;
    ok := true;
  }

  method CheckTemplates(ps: seq<PermissionDecl>, ts: seq<Template>, codes: set<string>, tenantCodes: set<string>,
                        platformCodes: set<string>)
    returns (ok: bool)
    requires codes == Codes(ps) && tenantCodes == CodesFor(ps, "tenant") && platformCodes == CodesFor(ps, "platform")
    ensures ok <==> TemplatesOk(ps, ts)
  {
    hide Codes, CodesFor;
    if |ts| != 3 {
      return false;
    }
    var templates: set<string> := {};
    for i := 0 to |ts|
      invariant templates == TemplateCodes(ts[..i]) && forall k :: 0 <= k < i ==> TemplateOk(ps, ts, k)
    {
      var t := ts[i];
      if t.code !in TEMPLATE_SCOPES || t.name == "" || t.description == "" || TEMPLATE_SCOPES[t.code] != t.scope
         || t.code in templates || "template:" + t.templateFor != t.code || |t.permissions| == 0
      {
        assert !TemplateOk(ps, ts, i);
        return false;
      }
      var allowed := codes;
      if t.scope == "TENANT" {
        allowed := allowed * tenantCodes;
      }
      if t.scope == "PLATFORM" {
        allowed := allowed * platformCodes;
      }
      var _, codesOk := CheckCodes(t.permissions, allowed);
      assert codesOk <==> GrantsOk(ps, t);
      if !codesOk {
        assert !TemplateOk(ps, ts, i);
        return false;
      }
      assert ts[..i + 1] == ts[..i] + [ts[i]];
      templates := templates + {t.code};
    }
    ok := true;
  }

  // ---------- The routes against the catalogue ----------

  ghost predicate IsByKey(catalog: seq<API>, actual: map<string, API>) {
    && (forall k :: k in actual ==> actual[k] in catalog && KeyOf(actual[k]) == k)
    && (forall a :: a in catalog ==> KeyOf(a) in actual && actual[KeyOf(a)] == a)
  }

  lemma {:induction false} OneMoreEntry(catalog: seq<API>, i: nat, actual: map<string, API>)
    requires i < |catalog| && CatalogDistinct(catalog[..i]) && IsByKey(catalog[..i], actual)
    ensures var a := catalog[i];
      if KeyOf(a) in actual then !CatalogDistinct(catalog)
      else CatalogDistinct(catalog[..i + 1]) && IsByKey(catalog[..i + 1], actual[KeyOf(a) := a])
  {
    hide KeyOf;
    var a := catalog[i];
    assert catalog[..i + 1] == catalog[..i] + [a];
    if KeyOf(a) in actual {
      var k :| 0 <= k < i && catalog[..i][k] == actual[KeyOf(a)];
      assert KeyOf(catalog[k]) == KeyOf(catalog[i]);
    } else {
      assert forall b :: b in catalog[..i] ==> KeyOf(b) != KeyOf(a);
    }
  }

  method IndexCatalog(catalog: seq<API>) returns (actual: map<string, API>, ok: bool)
    ensures ok <==> CatalogDistinct(catalog)
    ensures ok ==> IsByKey(catalog, actual) && |actual| == |catalog|
  {
    assert catalog[..0] == [];
    hide KeyOf;
    actual := map[];
    for i := 0 to |catalog|
      invariant CatalogDistinct(catalog[..i]) && IsByKey(catalog[..i], actual) && |actual| == i
    {
      hide *;
      var a := catalog[i];
      OneMoreEntry(catalog, i, actual);
      if KeyOf(a) in actual {
        return actual, false;
      }
      SizeGrows(actual, KeyOf(a), a);
      actual := actual[KeyOf(a) := a];
    }
    assert catalog[..|catalog|] == catalog;
    ok := true;
  }

  lemma {:induction false} SizeGrows<K, V>(m: map<K, V>, k: K, v: V)
    requires k !in m
    ensures |m[k := v]| == |m| + 1
  {
    assert m[k := v].Keys == m.Keys + {k};
  }

  lemma {:induction false} CatalogLookup(catalog: seq<API>, actual: map<string, API>, r: Route)
    requires IsByKey(catalog, actual)
    ensures InCatalog(catalog, r) <==>
            RouteKey(r) in actual && actual[RouteKey(r)].operation == r.operation
            && actual[RouteKey(r)].businessModule == r.module_
  {
  }

  /** The checks of one route, apart from its key being new. */
  method CheckRoute(resolver: Resolver, catalog: seq<API>, ps: seq<PermissionDecl>, actual: map<string, API>,
                    codes: set<string>, tenantCodes: set<string>, r: Route)
    returns (ok: bool)
    requires IsByKey(catalog, actual) && codes == Codes(ps) && tenantCodes == CodesFor(ps, "tenant")
    ensures ok <==> RouteOk(resolver, catalog, ps, r)
  {
    hide Codes, CodesFor, Resolve, IsByKey, InCatalog;
    CatalogLookup(catalog, actual, r);
    var key := RouteKey(r);
    if key !in actual || actual[key].operation != r.operation || actual[key].businessModule != r.module_ {
      return false;
    }
    if |r.permissions| == 0 {
      if r.authentication != "independent" || key !in INDEPENDENT {
        return false;
      }
    } else if r.authentication != "" {
      return false;
    }
    var routeCodes, codesOk := CheckCodes(r.permissions, codes);
    if !codesOk {
      return false;
    }
    match Resolve(resolver, r.verb, r.path) {
      case Ok(e) =>
        if e.entry.code !in routeCodes {
          return false;
        }
        if e.entry.scopeKind == "platform" && !(routeCodes !! tenantCodes) {
          var c :| c in routeCodes && c in tenantCodes;
          return false;
        }
        assert ScopeOk(resolver, ps, r) by {
          assert forall c :: c in r.permissions <==> c in routeCodes;
        }
      case Err(e) =>
        if e.ConflictError? {
          return false;
        }
    }
    ok := true;
  }

  /** The keys of the first i routes, all different. */
  ghost predicate Expecting(all: seq<Route>, i: nat, expected: set<string>)
    requires i <= |all|
  {
    && NoRepeats(RouteKeys(all[..i])) && |expected| == i
    && forall k :: k in expected <==> k in RouteKeys(all[..i])
  }

  lemma {:induction false} ExpectMore(all: seq<Route>, i: nat, expected: set<string>)
    requires i < |all| && Expecting(all, i, expected)
    ensures RouteKey(all[i]) in expected ==> !NoRepeats(RouteKeys(all))
    ensures RouteKey(all[i]) !in expected ==> Expecting(all, i + 1, expected + {RouteKey(all[i])})
  {
    var keys := RouteKeys(all);
    assert RouteKeys(all[..i]) == keys[..i] && RouteKeys(all[..i + 1]) == keys[..i] + [keys[i]];
    if keys[i] in keys[..i] {
      var k :| 0 <= k < i && keys[..i][k] == keys[i];
      assert keys[k] == keys[i];
    }
  }

  method CheckExcluded(catalog: seq<API>, actual: map<string, API>, r: Route) returns (ok: bool)
    requires IsByKey(catalog, actual)
    ensures ok <==> ExcludedOk(catalog, r)
  {
    var key := RouteKey(r);
    ok := key in actual && actual[key].operation == r.operation && actual[key].businessModule == r.module_
          && actual[key].module_ == "VMImageService" && |r.permissions| == 0 && r.authentication == "";
  }

  method CheckRoutes(resolver: Resolver, catalog: seq<API>, s: Seed, codes: set<string>, tenantCodes: set<string>)
    returns (ok: bool)
    requires codes == Codes(s.permissions) && tenantCodes == CodesFor(s.permissions, "tenant")
    ensures ok <==> RoutesOk(resolver, catalog, s)
  {
    hide Codes, CodesFor, RouteOk, ExcludedOk, IsByKey, NoRepeats, RouteKeys, CatalogDistinct, Expecting;
    var actual, distinct := IndexCatalog(catalog);
    if !distinct {
      return false;
    }
    ghost var all := s.routes + s.excluded;
    var expected: set<string> := {};
    ExpectNone(all);
    for i := 0 to |s.routes|
      invariant Expecting(all, i, expected)
      invariant forall k :: 0 <= k < i ==> RouteOk(resolver, catalog, s.permissions, s.routes[k])
    {
      var r := s.routes[i];
      assert all[i] == r;
      ExpectMore(all, i, expected);
      var routeOk := CheckRoute(resolver, catalog, s.permissions, actual, codes, tenantCodes, r);
      if !routeOk || RouteKey(r) in expected {
        return false;
      }
      expected := expected + {RouteKey(r)};
    }
    for i := 0 to |s.excluded|
      invariant Expecting(all, |s.routes| + i, expected)
      invariant forall k :: 0 <= k < i ==> ExcludedOk(catalog, s.excluded[k])
    {
      var r := s.excluded[i];
      assert all[|s.routes| + i] == r;
      ExpectMore(all, |s.routes| + i, expected);
      var excludedOk := CheckExcluded(catalog, actual, r);
      if !excludedOk || RouteKey(r) in expected {
        return false;
      }
      expected := expected + {RouteKey(r)};
    }
    ExpectedAll(all, expected);
    ok := |actual| == |expected|;
  }

  lemma {:induction false} ExpectNone(all: seq<Route>)
    ensures Expecting(all, 0, {})
  {
  }

  lemma {:induction false} ExpectedAll(all: seq<Route>, expected: set<string>)
    requires Expecting(all, |all|, expected)
    ensures NoRepeats(RouteKeys(all)) && |expected| == |all|
  {
    assert all[..|all|] == all;
  }

  method CheckMenus(s: Seed, codes: set<string>) returns (ok: bool)
    requires codes == Codes(s.permissions)
    ensures ok <==> MenusOk(s)
  {
    hide Codes;
    var modules: set<string> := {};
    for i := 0 to |s.modules|
      invariant NoRepeats(s.modules[..i]) && "" !in s.modules[..i]
      invariant forall m :: m in modules <==> m in s.modules[..i]
    {
      assert s.modules[..i + 1] == s.modules[..i] + [s.modules[i]];
      if s.modules[i] == "" || s.modules[i] in modules {
        if s.modules[i] in modules {
          var k :| 0 <= k < i && s.modules[..i][k] == s.modules[i];
          assert s.modules[k] == s.modules[i];
        }
        return false;
      }
      modules := modules + {s.modules[i]};
    }
    assert s.modules[..|s.modules|] == s.modules;
    var menus: set<string> := {};
    for i := 0 to |s.menus|
      invariant menus == MenuKeys(s.menus[..i]) && forall k :: 0 <= k < i ==> MenuOk(s, k)
    {
      var m := s.menus[i];
      if m.key == "" || m.key in menus || m.name == "" || m.path == "" || (m.client != "console" && m.client != "boss")
         || (m.parent != "" && m.parent !in menus) || (m.module_ != "" && m.module_ !in modules) || |m.permissions| == 0
      {
        assert !MenuOk(s, i);
        return false;
      }
      if c :| c in m.permissions && c !in codes {
        assert !MenuOk(s, i);
        return false;
      }
      assert s.menus[..i + 1] == s.menus[..i] + [s.menus[i]];
      menus := menus + {m.key};
    }
    ok := true;
  }

  /** validate. */
  method Validate(resolver: Resolver, catalog: seq<API>, routeCount: nat, s: Seed) returns (ok: bool)
    ensures ok <==> ValidSeed(resolver, catalog, routeCount, s)
  {
    hide GroupsOk, PermissionsOk, TemplatesOk, RoutesOk, MenusOk, Keys, Codes, CodesFor;
    if s.version != "console-boss-v1" || |s.routes| != routeCount {
      return false;
    }
    var groups, groupsOk := CheckGroups(s.groups);
    if !groupsOk {
      return false;
    }
    var codes, tenantCodes, platformCodes, permissionsOk := CheckPermissions(groups, s.permissions);
    if !permissionsOk {
      return false;
    }
    var templatesOk := CheckTemplates(s.permissions, s.templates, codes, tenantCodes, platformCodes);
    if !templatesOk {
      return false;
    }
    var routesOk := CheckRoutes(resolver, catalog, s, codes, tenantCodes);
    if !routesOk {
      return false;
    }
    ok := CheckMenus(s, codes);
  }
}
