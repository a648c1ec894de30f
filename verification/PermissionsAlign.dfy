/** Incremental alignment of permissions: sql/bootstrap/permissions_align.go. */
module PermissionsAlign {
  import opened Basics
  import opened Permcode
  import RouteForms

  // ---------- The tables ----------

  datatype Api = Api(verb: string, path: string, active: bool)

  datatype Permission = Permission(code: string, status: string)

  /** The rows a run sees: interfaces, permissions and the links between them, by id. */
  datatype State = State(apis: map<nat, Api>, permissions: map<nat, Permission>, links: set<(nat, nat)>)
  {
    /** Codes are unique, and a link names a permission that exists. */
    ghost predicate Valid() {
      && (forall p, q :: p in permissions && q in permissions && permissions[p].code == permissions[q].code ==> p == q)
      && (forall l :: l in links ==> l.0 in permissions)
    }
  }

  datatype Change =
    | Insert(code: string, apis: nat)
    | Link(code: string, api: nat)
    | Unlink(code: string, api: nat)
    | Keep(code: string, id: nat)
    | Disable(code: string, id: nat)

  /** The report: its lines (each is written once, and the list is sorted) and the counters. */
  datatype AlignResult = AlignResult(changes: set<Change>, inserted: nat, disabled: nat, kept: nat,
                                     linked: nat, unlinked: nat, matched: nat)

  datatype AlignError = Conflicts | Missing | WriteFailed

  const SYSTEM_PREFIX := "sys:"

  /** What a run is given: the resolver and the exempt list in normalised form. */
  datatype Rules = Rules(resolver: Resolver, exemptIndex: set<string>)
  {
    function Outcome(a: Api): Result<Expectation, ResolveError> {
      Resolve(resolver, a.verb, a.path)
    }

    predicate Exempt(a: Api) {
      IsExempt(resolver.tables, exemptIndex, a.verb, a.path)
    }
  }

  // ---------- What a run should do, as a function of the state it starts from ----------

  /** The active interfaces that resolve to the code. */
  function Expected(r: Rules, s: State, code: string): set<nat> {
    set a | a in s.apis && s.apis[a].active && r.Outcome(s.apis[a]).Ok? && r.Outcome(s.apis[a]).value.entry.code == code
  }

  function InScope(r: Rules, s: State): set<nat> {
    set a | a in s.apis && s.apis[a].active && r.Outcome(s.apis[a]).Ok?
  }

  function ExpectedCodes(r: Rules, s: State): set<string> {
    set a | a in InScope(r, s) :: r.Outcome(s.apis[a]).value.entry.code
  }

  predicate HasConflict(r: Rules, s: State) {
    exists a :: a in s.apis && s.apis[a].active && r.Outcome(s.apis[a]).Err?
      && r.Outcome(s.apis[a]).error.ConflictError?
  }

  predicate HasMissing(r: Rules, s: State) {
    exists a :: a in s.apis && s.apis[a].active && r.Outcome(s.apis[a]).Err? && r.Outcome(s.apis[a]).error.MissingError?
             && !r.Exempt(s.apis[a])
  }

  /** A route is refused as missing exactly when it is active and no key of the tables, nor one of the
      exempt list, has its normal form. */
  lemma {:induction false} HasMissingIff(r: Rules, s: State)
    requires r.resolver.Valid()
    requires r.exemptIndex == set k | k in r.resolver.tables.exempt :: RouteForms.FormOfKey(k)
    requires forall a :: a in s.apis ==> ' ' !in Method(s.apis[a].verb) && BraceFree(Method(s.apis[a].verb))
    ensures HasMissing(r, s) <==> exists a :: a in s.apis && s.apis[a].active && Unknown(r.resolver.tables, s.apis[a])
  {
    forall a | a in s.apis && s.apis[a].active
      ensures Unknown(r.resolver.tables, s.apis[a]) <==>
        r.Outcome(s.apis[a]).Err? && r.Outcome(s.apis[a]).error.MissingError? && !r.Exempt(s.apis[a])
    {
      var api := s.apis[a];
      RouteForms.MissingIff(r.resolver, api.verb, api.path);
      RouteForms.MissingKey(r.resolver, api.verb, api.path);
      RouteForms.ExemptIff(r.resolver.tables, r.exemptIndex, api.verb, api.path);
      hide Resolve, IsExempt, NormalKey, Normalized, RouteForms.FormOfKey, Key;
    }
    hide Unknown, Resolve, IsExempt;
  }

  ghost predicate Unknown(t: Tables, api: Api) {
    && (forall k :: Listed(t, k) ==> Normalized(k) != NormalKey(api.verb, api.path))
    && (forall k :: k in t.exempt ==> RouteForms.FormOfKey(k) != NormalKey(api.verb, api.path))
  }

  predicate Bound(s: State, id: nat, scope: set<nat>) {
    exists a :: a in scope && (id, a) in s.links
  }

  /** Codes outside the reserved prefix and the expected set that are still on. */
  predicate Superfluous(r: Rules, s: State, id: nat)
    requires id in s.permissions
  {
    var p := s.permissions[id];
    !(SYSTEM_PREFIX <= p.code) && p.code !in ExpectedCodes(r, s) && p.status == "ON"
  }

  predicate ToDisable(r: Rules, s: State, id: nat)
    requires id in s.permissions
  {
    Superfluous(r, s, id) && Bound(s, id, InScope(r, s))
  }

  /** An existing permission after the run. */
  function Settled(r: Rules, s: State, id: nat): Permission
    requires id in s.permissions
  {
    if ToDisable(r, s, id) then s.permissions[id].(status := "OFF") else s.permissions[id]
  }

  /** The lines of the report. */
  ghost predicate Reported(r: Rules, s: State, c: Change) {
    match c
    case Insert(code, n) =>
      code in ExpectedCodes(r, s) && (forall p :: p in s.permissions ==> s.permissions[p].code != code)
      && n == |Expected(r, s, code)|
    case Link(code, a) =>
      exists p :: p in s.permissions && s.permissions[p].code == code && a in Expected(r, s, code) && (p, a) !in s.links
    case Unlink(code, a) =>
      code in ExpectedCodes(r, s)
      && exists p :: p in s.permissions && s.permissions[p].code == code
                     && a !in Expected(r, s, code) && (p, a) in s.links
    case Keep(code, id) =>
      id in s.permissions && s.permissions[id].code == code && Superfluous(r, s, id) && !ToDisable(r, s, id)
    case Disable(code, id) =>
      id in s.permissions && s.permissions[id].code == code && ToDisable(r, s, id)
  }

  /** The state a real run leaves, up to the ids of new permissions: no permission is deleted or
      renamed, exactly the superfluous bound ones are turned off, exactly the missing expected codes
      are added, and every expected code is linked to exactly the interfaces that resolve to it. */
  ghost predicate Aligned(r: Rules, s: State, t: State) {
    && t.apis == s.apis
    && t.Valid()
    && (forall p :: p in s.permissions ==>
          p in t.permissions && t.permissions[p] == Settled(r, s, p))
    && (forall p :: p in t.permissions && p !in s.permissions ==>
          t.permissions[p].status == "ON" && t.permissions[p].code in ExpectedCodes(r, s)
          && forall q :: q in s.permissions ==> s.permissions[q].code != t.permissions[p].code)
    && (forall code :: code in ExpectedCodes(r, s) ==> exists p :: p in t.permissions && t.permissions[p].code == code)
    && (forall p, a :: p in t.permissions ==>
          ((p, a) in t.links <==>
             if t.permissions[p].code in ExpectedCodes(r, s) then a in Expected(r, s, t.permissions[p].code)
             else (p, a) in s.links))
  }

  // ---------- The counters ----------

  predicate HasPermission(s: State, code: string) {
    exists p :: p in s.permissions && s.permissions[p].code == code
  }

  predicate IsLinked(s: State, code: string, a: nat) {
    exists p :: p in s.permissions && s.permissions[p].code == code && (p, a) in s.links
  }

  function NewCodes(r: Rules, s: State): set<string> {
    set code | code in ExpectedCodes(r, s) && !HasPermission(s, code)
  }

  /** The interfaces a code resolves from but is not linked to, and those it should not be linked to. */
  function MissingApis(r: Rules, s: State, code: string): set<nat> {
    set a | a in Expected(r, s, code) && !IsLinked(s, code, a)
  }

  function StaleApis(r: Rules, s: State, code: string): set<nat> {
    set l | l in s.links && IsLinked(s, code, l.1) && l.1 !in Expected(r, s, code) :: l.1
  }

  function MissingLinks(r: Rules, s: State, codes: set<string>): set<(string, nat)> {
    set code, a | code in codes && a in MissingApis(r, s, code) :: (code, a)
  }

  function StaleLinks(r: Rules, s: State, codes: set<string>): set<(string, nat)> {
    set code, a | code in codes && a in StaleApis(r, s, code) :: (code, a)
  }

  /** The counters of a run from the state. All but linked are those of a dry run too; a dry run does
      not count the links of the codes it would insert. */
  ghost predicate Counted(r: Rules, s: State, dryRun: bool, res: AlignResult) {
    && res.inserted == |NewCodes(r, s)| && res.matched == |ExpectedCodes(r, s) - NewCodes(r, s)|
    && res.linked == |MissingLinks(r, s, if dryRun then ExpectedCodes(r, s) - NewCodes(r, s) else ExpectedCodes(r, s))|
    && res.unlinked == |StaleLinks(r, s, ExpectedCodes(r, s))|
    && res.disabled == |set id | id in s.permissions && ToDisable(r, s, id)|
    && res.kept == |set id | id in s.permissions && Superfluous(r, s, id) && !ToDisable(r, s, id)|
  }

  function Pairs(code: string, ids: set<nat>): set<(string, nat)> {
    set a | a in ids :: (code, a)
  }

  lemma {:induction false} PairMember(code: string, ids: set<nat>, t: (string, nat))
    ensures t in Pairs(code, ids) <==> t.0 == code && t.1 in ids
  {
  }

  lemma {:induction false} PairCount(code: string, ids: set<nat>)
    ensures |Pairs(code, ids)| == |ids|
  {
    if ids != {} {
      var a :| a in ids;
      PairCount(code, ids - {a});
      assert Pairs(code, ids) == Pairs(code, ids - {a}) + {(code, a)};
    }
  }

  lemma {:induction false} DisjointCount<T>(all: set<T>, a: set<T>, b: set<T>)
    requires all == a + b && a !! b
    ensures |all| == |a| + |b|
  {
  }

  lemma {:induction false} MissingMember(r: Rules, s: State, codes: set<string>, t: (string, nat))
    ensures t in MissingLinks(r, s, codes) <==> t.0 in codes && t.1 in MissingApis(r, s, t.0)
  {
    hide MissingApis;
  }

  lemma {:induction false} OneMoreMissing(r: Rules, s: State, codes: set<string>, code: string)
    requires code !in codes
    ensures |MissingLinks(r, s, codes + {code})| == |MissingLinks(r, s, codes)| + |MissingApis(r, s, code)|
  {
    hide MissingApis, MissingLinks, Pairs;
    var missing := MissingApis(r, s, code);
    PairCount(code, missing);
    forall t
      ensures t in MissingLinks(r, s, codes + {code}) <==> t in MissingLinks(r, s, codes) || t in Pairs(code, missing)
      ensures !(t in MissingLinks(r, s, codes) && t in Pairs(code, missing))
    {
      MissingMember(r, s, codes, t);
      MissingMember(r, s, codes + {code}, t);
      PairMember(code, missing, t);
    }
    DisjointCount(MissingLinks(r, s, codes + {code}), MissingLinks(r, s, codes), Pairs(code, missing));
  }

  lemma {:induction false} StaleMember(r: Rules, s: State, codes: set<string>, t: (string, nat))
    ensures t in StaleLinks(r, s, codes) <==> t.0 in codes && t.1 in StaleApis(r, s, t.0)
  {
    hide StaleApis;
  }

  lemma {:induction false} OneMoreStale(r: Rules, s: State, codes: set<string>, code: string)
    requires code !in codes
    ensures |StaleLinks(r, s, codes + {code})| == |StaleLinks(r, s, codes)| + |StaleApis(r, s, code)|
  {
    hide StaleApis, StaleLinks, Pairs;
    var stale := StaleApis(r, s, code);
    PairCount(code, stale);
    forall t
      ensures t in StaleLinks(r, s, codes + {code}) <==> t in StaleLinks(r, s, codes) || t in Pairs(code, stale)
      ensures !(t in StaleLinks(r, s, codes) && t in Pairs(code, stale))
    {
      StaleMember(r, s, codes, t);
      StaleMember(r, s, codes + {code}, t);
      PairMember(code, stale, t);
    }
    DisjointCount(StaleLinks(r, s, codes + {code}), StaleLinks(r, s, codes), Pairs(code, stale));
  }

  lemma {:induction false} MatchedCounts(r: Rules, s: State, code: string, id: nat)
    requires s.Valid() && id in s.permissions && s.permissions[id].code == code
    ensures MissingApis(r, s, code) == Expected(r, s, code) - BoundApis(s, id)
    ensures StaleApis(r, s, code) == BoundApis(s, id) - Expected(r, s, code)
  {
    hide Expected;
    forall a ensures IsLinked(s, code, a) <==> a in BoundApis(s, id) {
    }
    forall a ensures a in StaleApis(r, s, code) <==> a in BoundApis(s, id) && a !in Expected(r, s, code) {
      assert a in BoundApis(s, id) ==> (id, a) in s.links;
    }
  }

  lemma {:induction false} NewCounts(r: Rules, s: State, code: string)
    requires !HasPermission(s, code)
    ensures MissingApis(r, s, code) == Expected(r, s, code) && StaleApis(r, s, code) == {}
  {
    hide Expected;
  }

  // ---------- Consequences ----------

  /** After a real run nothing is left to do: a second run reports no insertion, no link added or
      removed and nothing turned off, only the codes the first run already reported as kept. */
  lemma {:induction false} SecondRunDoesNothing(r: Rules, s: State, t: State, c: Change)
    requires s.Valid() && Aligned(r, s, t)
    ensures Reported(r, t, c) <==> c.Keep? && Reported(r, s, c)
  {
    SameExpectations(r, s, t);
    hide Resolve, Expected, ExpectedCodes, InScope;
    match c
    case Insert(code, n) =>
    case Link(code, a) =>
      if Reported(r, t, c) {
        ExpectedIsCode(r, s, code, a);
      }
    case Unlink(code, a) =>
    case Keep(code, id) =>
      Untouched(r, s, t, id);
    case Disable(code, id) =>
      Untouched(r, s, t, id);
  }

  lemma {:induction false} SameExpectations(r: Rules, s: State, t: State)
    requires t.apis == s.apis
    ensures InScope(r, t) == InScope(r, s) && ExpectedCodes(r, t) == ExpectedCodes(r, s)
    ensures forall code :: Expected(r, t, code) == Expected(r, s, code)
  {
  }

  lemma {:induction false} ExpectedIsCode(r: Rules, s: State, code: string, a: nat)
    requires a in Expected(r, s, code)
    ensures code in ExpectedCodes(r, s)
  {
    assert a in InScope(r, s);
  }

  /** What is superfluous after the run was superfluous and unbound before it, and the other way. */
  lemma {:induction false} Untouched(r: Rules, s: State, t: State, id: nat)
    requires Aligned(r, s, t)
    ensures id in t.permissions && Superfluous(r, t, id) ==>
      id in s.permissions && s.permissions[id] == t.permissions[id] && Superfluous(r, s, id) && !ToDisable(r, t, id)
    ensures id in s.permissions && Superfluous(r, s, id) && !ToDisable(r, s, id) ==>
      id in t.permissions && s.permissions[id] == t.permissions[id] && Superfluous(r, t, id)
    ensures id in t.permissions && Superfluous(r, t, id) ==> !ToDisable(r, s, id)
  {
    SameExpectations(r, s, t);
    hide Resolve, Expected, ExpectedCodes, InScope;
    assert id in t.permissions && Superfluous(r, t, id) ==> forall a :: (id, a) in t.links <==> (id, a) in s.links;
  }

  // ---------- The run ----------

  class Database {
    var apis: map<nat, Api>
    var permissions: map<nat, Permission>
    var links: set<(nat, nat)>
    var sequence: nat

    function Now(): State
      reads this
    {
      State(apis, permissions, links)
    }

    /** The sequence is past every id in use. */
    ghost predicate SequenceAhead()
      reads this
    {
      forall p :: p in permissions ==> p < sequence
    }

    constructor (s: State, next: nat)
      ensures Now() == s && sequence == next
    {
      apis, permissions, links, sequence := s.apis, s.permissions, s.links, next;
    }

    /** INSERT ... ON CONFLICT (code) DO NOTHING, then the id of the code. An id that the sequence
        hands out although it is in use makes the statement fail. */
    method InsertPermission(code: string) returns (r: Result<nat, AlignError>)
      requires Now().Valid()
      modifies this
      ensures apis == old(apis) && links == old(links) && sequence == old(sequence) + 1
      ensures Now().Valid()
      ensures r.Ok? ==> r.value in permissions && permissions[r.value].code == code
      ensures r.Ok? && (forall p :: p in old(permissions) ==> old(permissions)[p].code != code) ==>
        r.value == old(sequence) && r.value !in old(permissions)
        && permissions == old(permissions)[r.value := Permission(code, "ON")]
      ensures r.Err? ==> r.error == WriteFailed && old(sequence) in old(permissions)
    {
      var id := sequence;
      sequence := sequence + 1;
      if exists p :: p in permissions && permissions[p].code == code {
        var p :| p in permissions && permissions[p].code == code;
        return if id in permissions then Err(WriteFailed) else Ok(p);
      }
      if id in permissions {
        return Err(WriteFailed);
      }
      permissions := permissions[id := Permission(code, "ON")];
      return Ok(id);
    }

    method InsertLink(permission: nat, api: nat)
      modifies this`links
      ensures links == old(links) + {(permission, api)}
    {
      links := links + {(permission, api)};
    }

    method DeleteLink(permission: nat, api: nat)
      modifies this`links
      ensures links == old(links) - {(permission, api)}
    {
      links := links - {(permission, api)};
    }

    method SwitchOff(id: nat)
      requires id in permissions
      modifies this`permissions
      ensures permissions == old(permissions)[id := old(permissions)[id].(status := "OFF")]
    {
      permissions := permissions[id := permissions[id].(status := "OFF")];
    }
  }

  /** What step 1 has gathered. */
  datatype Gathered = Gathered(expected: map<string, set<nat>>, inScope: set<nat>, conflict: bool, missing: bool)
  {
    ghost predicate For(r: Rules, s: State) {
      && conflict == HasConflict(r, s) && missing == HasMissing(r, s)
      && inScope == InScope(r, s)
      && expected.Keys == ExpectedCodes(r, s)
      && forall code :: code in expected ==> expected[code] == Expected(r, s, code)
    }
  }

  /** The code an interface contributes to, if any. */
  function CodeOf(r: Rules, api: Api): Option<string> {
    if api.active && r.Outcome(api).Ok? then Some(r.Outcome(api).value.entry.code) else None
  }

  method GatherApi(r: Rules, g: Gathered, a: nat, api: Api, ghost done: State, ghost more: State) returns (h: Gathered)
    requires g.For(r, done) && a in more.apis && more.apis[a] == api && done.apis == more.apis - {a}
    ensures h.For(r, more)
  {
    hide *;
    h := g;
    if api.active {
      var e := r.Outcome(api);
      if e.Err? {
        if e.error.ConflictError? {
          h := g.(conflict := true);
        } else if !r.Exempt(api) {
          h := g.(missing := true);
        }
      } else {
        h := g.(inScope := g.inScope + {a}, expected := AddTo(g.expected, e.value.entry.code, a));
      }
    }
    GatheredMore(r, g, h, a, done, more);
  }

  lemma {:induction false} GatheredMore(r: Rules, g: Gathered, h: Gathered, a: nat, done: State, more: State)
    requires g.For(r, done) && a in more.apis && done.apis == more.apis - {a}
    requires var api := more.apis[a]; var e := r.Outcome(api);
      h == if !api.active then g
           else if e.Ok? then g.(inScope := g.inScope + {a}, expected := AddTo(g.expected, e.value.entry.code, a))
           else if e.error.ConflictError? then g.(conflict := true)
           else if r.Exempt(api) then g else g.(missing := true)
    ensures h.For(r, more)
  {
    OneMoreApi(r, done, more, a);
    hide Resolve, Expected, ExpectedCodes, InScope, HasConflict, HasMissing, IsExempt;
    MapGathered(r, g.expected, a, done, more);
  }

  lemma {:induction false} MapGathered(r: Rules, m: map<string, set<nat>>, a: nat, done: State, more: State)
    requires a in more.apis && done.apis == more.apis - {a}
    requires m.Keys == ExpectedCodes(r, done) && forall code :: code in m ==> m[code] == Expected(r, done, code)
    ensures var c := CodeOf(r, more.apis[a]);
      var n := if c.Some? then AddTo(m, c.value, a) else m;
      n.Keys == m.Keys + (if c.Some? then {c.value} else {})
      && forall code :: code in n ==> n[code] == Expected(r, more, code)
  {
    hide Resolve, Expected, ExpectedCodes, InScope;
    var c := CodeOf(r, more.apis[a]);
    var n := if c.Some? then AddTo(m, c.value, a) else m;
    forall code | code in n
      ensures n[code] == Expected(r, more, code)
    {
      MoreExpected(r, done, more, a, code);
    }
  }

  function AddTo(m: map<string, set<nat>>, code: string, a: nat): map<string, set<nat>> {
    m[code := (if code in m then m[code] else {}) + {a}]
  }

  /** Step 1: the expected code of every active interface, or the reason to refuse the whole run. */
  method LoadExpected(r: Rules, s: State) returns (g: Gathered)
    ensures g.For(r, s)
  {
    g := Gathered(map[], {}, false, false);
    var todo := s.apis.Keys;
    ghost var done := s.(apis := map[]);
    assert g.For(r, done);
    hide *;
    while todo != {}
      invariant todo <= s.apis.Keys
      invariant done == s.(apis := s.apis - todo)
      invariant g.For(r, done)
      decreases todo
    {
      var a :| a in todo;
      todo := todo - {a};
      ghost var more := s.(apis := s.apis - todo);
      assert done.apis == more.apis - {a};
      g := GatherApi(r, g, a, s.apis[a], done, more);
      done := more;
    }
    assert s.apis - todo == s.apis;
  }

  lemma {:induction false} OneMoreApi(r: Rules, s: State, t: State, a: nat)
    requires a in t.apis && s.apis == t.apis - {a}
    ensures var api := t.apis[a]; var e := r.Outcome(api);
      && HasConflict(r, t) == (HasConflict(r, s) || (api.active && e.Err? && e.error.ConflictError?))
      && HasMissing(r, t) == (HasMissing(r, s) || (api.active && e.Err? && e.error.MissingError? && !r.Exempt(api)))
      && InScope(r, t) == InScope(r, s) + (if CodeOf(r, api).Some? then {a} else {})
      && ExpectedCodes(r, t) == ExpectedCodes(r, s) + (if CodeOf(r, api).Some? then {CodeOf(r, api).value} else {})
  {
    hide Resolve;
    assert forall b :: b in t.apis <==> b == a || b in s.apis;
    assert forall b :: b in s.apis ==> t.apis[b] == s.apis[b];
  }

  lemma {:induction false} MoreExpected(r: Rules, s: State, t: State, a: nat, code: string)
    requires a in t.apis && s.apis == t.apis - {a}
    ensures Expected(r, t, code) == Expected(r, s, code) + (if CodeOf(r, t.apis[a]) == Some(code) then {a} else {})
    ensures code !in ExpectedCodes(r, s) ==> Expected(r, s, code) == {}
  {
    hide Resolve;
    assert forall b :: b in t.apis <==> b == a || b in s.apis;
    assert forall b :: b in s.apis ==> t.apis[b] == s.apis[b];
    if b :| b in Expected(r, s, code) {
      ExpectedIsCode(r, s, code, b);
    }
  }

  method AddLinks(db: Database, code: string, id: nat, want: set<nat>, bound: set<nat>, dryRun: bool)
    returns (changes: set<Change>, linked: nat)
    modifies db`links
    ensures forall c :: c in changes <==> c.Link? && c.code == code && c.api in want - bound
    ensures linked == |want - bound|
    ensures dryRun ==> db.links == old(db.links)
    ensures !dryRun ==> forall l :: l in db.links <==> l in old(db.links) || (l.0 == id && l.1 in want - bound)
  {
    changes, linked := {}, 0;
    var todo := want;
    ghost var added: set<nat> := {};
    while todo != {}
      invariant todo <= want && added == (want - bound) - todo && linked == |added|
      invariant forall c :: c in changes <==> c.Link? && c.code == code && c.api in added
      invariant dryRun ==> db.links == old(db.links)
      invariant !dryRun ==> forall l :: l in db.links <==> l in old(db.links) || (l.0 == id && l.1 in added)
      decreases todo
    {
      var a :| a in todo;
      todo := todo - {a};
      if a !in bound {
        changes := changes + {Link(code, a)};
        linked := linked + 1;
        if !dryRun {
          db.InsertLink(id, a);
        }
        added := added + {a};
      }
    }
    assert added == want - bound;
  }

  method RemoveLinks(db: Database, code: string, id: nat, want: set<nat>, bound: set<nat>, dryRun: bool)
    returns (changes: set<Change>, unlinked: nat)
    modifies db`links
    ensures forall c :: c in changes <==> c.Unlink? && c.code == code && c.api in bound - want
    ensures unlinked == |bound - want|
    ensures dryRun ==> db.links == old(db.links)
    ensures !dryRun ==> forall l :: l in db.links <==> l in old(db.links) && !(l.0 == id && l.1 in bound - want)
  {
    changes, unlinked := {}, 0;
    var todo := bound;
    ghost var removed: set<nat> := {};
    while todo != {}
      invariant todo <= bound && removed == (bound - want) - todo && unlinked == |removed|
      invariant forall c :: c in changes <==> c.Unlink? && c.code == code && c.api in removed
      invariant dryRun ==> db.links == old(db.links)
      invariant !dryRun ==> forall l :: l in db.links <==> l in old(db.links) && !(l.0 == id && l.1 in removed)
      decreases todo
    {
      var a :| a in todo;
      todo := todo - {a};
      if a !in want {
        changes := changes + {Unlink(code, a)};
        unlinked := unlinked + 1;
        if !dryRun {
          db.DeleteLink(id, a);
        }
        removed := removed + {a};
      }
    }
    assert removed == bound - want;
  }

  /** Step 3 for a code that has a permission: adds the links that are wanted, removes the others. */
  method AlignMatched(db: Database, code: string, id: nat, want: set<nat>, bound: set<nat>, dryRun: bool)
    returns (changes: set<Change>, linked: nat, unlinked: nat)
    modifies db`links
    ensures forall c :: c in changes <==>
      (c.Link? && c.code == code && c.api in want - bound) || (c.Unlink? && c.code == code && c.api in bound - want)
    ensures linked == |want - bound| && unlinked == |bound - want|
    ensures dryRun ==> db.links == old(db.links)
    ensures !dryRun ==> forall l :: l in db.links <==>
      (l in old(db.links) && !(l.0 == id && l.1 in bound - want)) || (l.0 == id && l.1 in want - bound)
  {
    var added, removed;
    added, linked := AddLinks(db, code, id, want, bound, dryRun);
    removed, unlinked := RemoveLinks(db, code, id, want, bound, dryRun);
    changes := added + removed;
  }

  method LinkAll(db: Database, id: nat, want: set<nat>)
    modifies db`links
    ensures forall l :: l in db.links <==> l in old(db.links) || (l.0 == id && l.1 in want)
  {
    var todo := want;
    while todo != {}
      invariant todo <= want
      invariant forall l :: l in db.links <==> l in old(db.links) || (l.0 == id && l.1 in want - todo)
      decreases todo
    {
      var a :| a in todo;
      db.InsertLink(id, a);
      todo := todo - {a};
    }
  }

  /** The report after the codes in done have been handled. */
  ghost predicate ReportedSoFar(r: Rules, s: State, done: set<string>, changes: set<Change>) {
    forall c :: c in changes <==> (c.Insert? || c.Link? || c.Unlink?) && c.code in done && Reported(r, s, c)
  }

  /** A real run that started at s, after the codes in done have been handled. */
  ghost predicate InProgress(r: Rules, s: State, now: State, done: set<string>) {
    now.apis == s.apis && now.Valid() && KeepsOld(s, now) && NewFor(s, now, done) && HasAll(now, done)
      && LinksSettled(r, s, now, done)
  }

  ghost predicate KeepsOld(s: State, now: State) {
    forall p :: p in s.permissions ==> p in now.permissions && now.permissions[p] == s.permissions[p]
  }

  /** What was inserted is ON, for a code that is done and had no permission. */
  ghost predicate NewFor(s: State, now: State, done: set<string>) {
    forall p :: p in now.permissions && p !in s.permissions ==>
      now.permissions[p].status == "ON" && now.permissions[p].code in done
      && forall q :: q in s.permissions ==> s.permissions[q].code != now.permissions[p].code
  }

  ghost predicate HasAll(now: State, done: set<string>) {
    forall code :: code in done ==> exists p :: p in now.permissions && now.permissions[p].code == code
  }

  ghost predicate LinksSettled(r: Rules, s: State, now: State, done: set<string>) {
    forall p, a :: p in now.permissions ==>
      ((p, a) in now.links <==>
         if now.permissions[p].code in done then a in Expected(r, s, now.permissions[p].code)
         else (p, a) in s.links)
  }

  lemma {:induction false} InsertedInProgress(r: Rules, s: State, before: State, after: State, done: set<string>,
                                              code: string, id: nat)
    requires s.Valid() && InProgress(r, s, before, done)
    requires code !in done && forall p :: p in s.permissions ==> s.permissions[p].code != code
    requires id !in before.permissions && after.apis == before.apis
    requires after.permissions == before.permissions[id := Permission(code, "ON")]
    requires forall l :: l in after.links <==> l in before.links || (l.0 == id && l.1 in Expected(r, s, code))
    ensures InProgress(r, s, after, done + {code})
  {
    hide Expected, HasAll, LinksSettled, State.Valid;
    assert forall p :: p in before.permissions ==> before.permissions[p].code != code;
    hide KeepsOld, NewFor;
    InsertedLinks(r, s, before, after, done, code, id);
    InsertedValid(before, after, code, id);
    InsertedCodes(before, after, done, code, id);
    InsertedNew(s, before, after, done, code, id);
  }

  lemma {:induction false} InsertedNew(s: State, before: State, after: State, done: set<string>, code: string, id: nat)
    requires KeepsOld(s, before) && NewFor(s, before, done)
    requires forall p :: p in s.permissions ==> s.permissions[p].code != code
    requires id !in before.permissions && after.permissions == before.permissions[id := Permission(code, "ON")]
    ensures KeepsOld(s, after) && NewFor(s, after, done + {code})
  {
  }

  lemma {:induction false} InsertedCodes(before: State, after: State, done: set<string>, code: string, id: nat)
    requires HasAll(before, done)
    requires id !in before.permissions && after.permissions == before.permissions[id := Permission(code, "ON")]
    ensures HasAll(after, done + {code})
  {
    assert after.permissions[id].code == code;
    forall c | c in done
      ensures exists p :: p in after.permissions && after.permissions[p].code == c
    {
      var p :| p in before.permissions && before.permissions[p].code == c;
      assert after.permissions[p].code == c;
    }
  }

  lemma {:induction false} InsertedValid(before: State, after: State, code: string, id: nat)
    requires before.Valid() && id !in before.permissions
    requires forall p :: p in before.permissions ==> before.permissions[p].code != code
    requires after.permissions == before.permissions[id := Permission(code, "ON")]
    requires forall l :: l in after.links ==> l in before.links || l.0 == id
    ensures after.Valid()
  {
  }

  lemma {:induction false} InsertedLinks(r: Rules, s: State, before: State, after: State, done: set<string>,
                                         code: string, id: nat)
    requires before.Valid() && LinksSettled(r, s, before, done)
    requires forall p :: p in before.permissions ==> before.permissions[p].code != code
    requires id !in before.permissions
    requires after.permissions == before.permissions[id := Permission(code, "ON")]
    requires forall l :: l in after.links <==> l in before.links || (l.0 == id && l.1 in Expected(r, s, code))
    ensures LinksSettled(r, s, after, done + {code})
  {
    hide Expected;
    forall p, a | p in after.permissions
      ensures (p, a) in after.links <==>
             if after.permissions[p].code in done + {code} then a in Expected(r, s, after.permissions[p].code)
             else (p, a) in s.links
    {
      if p == id {
        assert (p, a) !in before.links;
      } else {
        assert after.permissions[p] == before.permissions[p];
      }
    }
  }

  lemma {:induction false} MatchedInProgress(r: Rules, s: State, before: State, after: State, done: set<string>,
                                             code: string, id: nat, bound: set<nat>)
    requires s.Valid() && InProgress(r, s, before, done)
    requires code !in done && id in s.permissions && s.permissions[id].code == code
    requires bound == BoundApis(s, id)
    requires after.apis == before.apis && after.permissions == before.permissions
    requires var want := Expected(r, s, code);
      forall l :: l in after.links <==>
        (l in before.links && !(l.0 == id && l.1 in bound - want)) || (l.0 == id && l.1 in want - bound)
    ensures InProgress(r, s, after, done + {code})
  {
    hide Expected;
    assert before.permissions[id] == s.permissions[id];
    forall p, a | p in after.permissions
      ensures (p, a) in after.links <==>
             if after.permissions[p].code in done + {code} then a in Expected(r, s, after.permissions[p].code)
             else (p, a) in s.links
    {
      if p == id {
        assert a in bound <==> (id, a) in s.links;
      } else {
        assert after.permissions[p].code != code;
      }
    }
  }

  function BoundApis(s: State, id: nat): set<nat> {
    set l | l in s.links && l.0 == id :: l.1
  }

  lemma {:induction false} MatchedReports(r: Rules, s: State, done: set<string>, code: string, id: nat,
                                          lines: set<Change>)
    requires s.Valid() && code in ExpectedCodes(r, s) && id in s.permissions && s.permissions[id].code == code
    requires var want, bound := Expected(r, s, code), BoundApis(s, id);
      forall c :: c in lines <==>
        (c.Link? && c.code == code && c.api in want - bound) || (c.Unlink? && c.code == code && c.api in bound - want)
    ensures forall changes :: ReportedSoFar(r, s, done, changes) ==> ReportedSoFar(r, s, done + {code}, changes + lines)
  {
    hide *;
    forall changes | ReportedSoFar(r, s, done, changes)
      ensures ReportedSoFar(r, s, done + {code}, changes + lines)
    {
      MatchedReport(r, s, done, changes, changes + lines, code, id, lines);
    }
  }

  lemma {:induction false} InsertReports(r: Rules, s: State, done: set<string>, code: string, count: nat)
    requires code in ExpectedCodes(r, s) && count == |Expected(r, s, code)|
    requires forall p :: p in s.permissions ==> s.permissions[p].code != code
    ensures forall changes :: ReportedSoFar(r, s, done, changes) ==>
      ReportedSoFar(r, s, done + {code}, changes + {Insert(code, count)})
  {
    hide *;
    forall changes | ReportedSoFar(r, s, done, changes)
      ensures ReportedSoFar(r, s, done + {code}, changes + {Insert(code, count)})
    {
      InsertReport(r, s, done, changes, code);
    }
  }

  lemma {:induction false} MatchedReport(r: Rules, s: State, done: set<string>, before: set<Change>, after: set<Change>,
                                         code: string, id: nat, changes: set<Change>)
    requires s.Valid() && ReportedSoFar(r, s, done, before) && after == before + changes
    requires code in ExpectedCodes(r, s) && id in s.permissions && s.permissions[id].code == code
    requires var want, bound := Expected(r, s, code), BoundApis(s, id);
      forall c :: c in changes <==>
        (c.Link? && c.code == code && c.api in want - bound) || (c.Unlink? && c.code == code && c.api in bound - want)
    ensures ReportedSoFar(r, s, done + {code}, after)
  {
    hide Expected, ExpectedCodes;
    assert forall a :: a in BoundApis(s, id) <==> (id, a) in s.links;
    forall c: Change | (c.Insert? || c.Link? || c.Unlink?) && c.code == code
      ensures Reported(r, s, c) <==> c in changes
    {
    }
  }

  lemma {:induction false} InsertReport(r: Rules, s: State, done: set<string>, before: set<Change>, code: string)
    requires ReportedSoFar(r, s, done, before) && code in ExpectedCodes(r, s)
    requires forall p :: p in s.permissions ==> s.permissions[p].code != code
    ensures ReportedSoFar(r, s, done + {code}, before + {Insert(code, |Expected(r, s, code)|)})
  {
    hide Expected, ExpectedCodes;
  }

  /** decideDisable: which permissions to turn off, and which to report as left alone. */
  method DecideDisable(r: Rules, s: State, inScope: set<nat>, expected: set<string>)
    returns (disable: set<nat>, protect: set<nat>)
    requires inScope == InScope(r, s) && expected == ExpectedCodes(r, s)
    ensures forall id :: id in disable <==> id in s.permissions && ToDisable(r, s, id)
    ensures forall id :: id in protect <==> id in s.permissions && Superfluous(r, s, id) && !ToDisable(r, s, id)
  {
    hide ExpectedCodes, InScope;
    disable, protect := {}, {};
    var todo := s.permissions.Keys;
    while todo != {}
      invariant todo <= s.permissions.Keys
      invariant forall id :: id in disable <==> id in s.permissions && id !in todo && ToDisable(r, s, id)
      invariant forall id :: id in protect <==>
        id in s.permissions && id !in todo && Superfluous(r, s, id) && !ToDisable(r, s, id)
      decreases todo
    {
      var id :| id in todo;
      todo := todo - {id};
      var p := s.permissions[id];
      if SYSTEM_PREFIX <= p.code || p.code in expected || p.status != "ON" {
        continue;
      }
      if Bound(s, id, inScope) {
        disable := disable + {id};
      } else {
        protect := protect + {id};
      }
    }
  }

  /** Step 4 on the tables: exactly the permissions to turn off are turned off. */
  lemma {:induction false} SwitchedOff(r: Rules, s: State, before: State, after: State, disable: set<nat>)
    requires s.Valid() && InProgress(r, s, before, ExpectedCodes(r, s))
    requires forall id :: id in disable <==> id in s.permissions && ToDisable(r, s, id)
    requires after.apis == before.apis && after.links == before.links
      && after.permissions.Keys == before.permissions.Keys
    requires forall p :: p in before.permissions ==>
      after.permissions[p] == if p in disable then before.permissions[p].(status := "OFF") else before.permissions[p]
    ensures Aligned(r, s, after)
  {
    hide Expected, ExpectedCodes, InScope;
    assert forall p :: p in after.permissions ==> after.permissions[p].code == before.permissions[p].code;
    SwitchedValid(before, after);
    hide State.Valid;
    assert forall p :: p in s.permissions ==> after.permissions[p] == Settled(r, s, p);
    hide Settled, ToDisable;
  }

  lemma {:induction false} SwitchedValid(before: State, after: State)
    requires before.Valid() && after.links == before.links && after.permissions.Keys == before.permissions.Keys
    requires forall p :: p in before.permissions ==> after.permissions[p].code == before.permissions[p].code
    ensures after.Valid()
  {
  }

  datatype CodeOutcome = CodeOutcome(lines: set<Change>, isNew: bool, linked: nat, unlinked: nat)

  /** Step 3 for a code with a permission: synchronises its links. */
  method AlignBound(db: Database, r: Rules, s: State, code: string, id: nat, ids: set<nat>, dryRun: bool,
                    ghost done: set<string>)
    returns (o: Result<CodeOutcome, AlignError>)
    requires s.Valid() && code in ExpectedCodes(r, s) && code !in done && ids == Expected(r, s, code)
    requires id in s.permissions && s.permissions[id].code == code
    requires dryRun || InProgress(r, s, db.Now(), done)
    modifies db`links
    ensures dryRun ==> db.links == old(db.links)
    ensures !dryRun ==> InProgress(r, s, db.Now(), done + {code})
    ensures o.Ok? && !o.value.isNew
    ensures forall changes :: ReportedSoFar(r, s, done, changes) ==>
      ReportedSoFar(r, s, done + {code}, changes + o.value.lines)
    ensures o.value.linked == |MissingApis(r, s, code)| && o.value.unlinked == |StaleApis(r, s, code)|
  {
    hide Expected, ExpectedCodes, ReportedSoFar, MissingApis, StaleApis, BoundApis, InProgress, State.Valid;
    ghost var before := db.Now();
    var bound := BoundApis(s, id);
    var lines, l, u := AlignMatched(db, code, id, ids, bound, dryRun);
    MatchedCounts(r, s, code, id);
    if !dryRun {
      MatchedInProgress(r, s, before, db.Now(), done, code, id, bound);
    }
    MatchedReports(r, s, done, code, id, lines);
    o := Ok(CodeOutcome(lines, false, l, u));
  }

  lemma {:induction false} CodeIsNew(r: Rules, s: State, now: State, done: set<string>, code: string)
    requires InProgress(r, s, now, done) && code !in done && !HasPermission(s, code)
    ensures now.Valid() && forall p :: p in now.permissions ==> now.permissions[p].code != code
    ensures forall p :: p in s.permissions ==> s.permissions[p].code != code
  {
    hide Expected;
  }

  /** Step 3 for a code without a permission: inserts one and links it to what it is expected on. */
  method AlignNew(db: Database, r: Rules, s: State, code: string, ids: set<nat>, ghost done: set<string>)
    returns (o: Result<CodeOutcome, AlignError>)
    requires s.Valid() && code !in done && ids == Expected(r, s, code) && !HasPermission(s, code)
    requires InProgress(r, s, db.Now(), done)
    modifies db
    ensures o.Ok? ==> InProgress(r, s, db.Now(), done + {code})
    ensures o.Ok? ==> o.value == CodeOutcome({Insert(code, |ids|)}, true, |ids|, 0)
    ensures old(db.SequenceAhead()) ==> db.SequenceAhead() && o.Ok?
    ensures o.Err? ==> o.error == WriteFailed
  {
    ghost var before := db.Now();
    CodeIsNew(r, s, before, done, code);
    hide Expected, InProgress, State.Valid, HasPermission;
    var id := db.InsertPermission(code);
    if id.Err? {
      return Err(WriteFailed);
    }
    LinkAll(db, id.value, ids);
    InsertedInProgress(r, s, before, db.Now(), done, code, id.value);
    return Ok(CodeOutcome({Insert(code, |ids|)}, true, |ids|, 0));
  }

  /** Step 3 for one expected code: synchronises the links of its permission, or inserts it. */
  method AlignCode(db: Database, r: Rules, s: State, code: string, ids: set<nat>, dryRun: bool, ghost done: set<string>)
    returns (o: Result<CodeOutcome, AlignError>)
    requires s.Valid() && code in ExpectedCodes(r, s) && code !in done && ids == Expected(r, s, code)
    requires dryRun || InProgress(r, s, db.Now(), done)
    modifies db
    ensures dryRun ==> db.Now() == old(db.Now()) && o.Ok?
    ensures !dryRun && o.Ok? ==> InProgress(r, s, db.Now(), done + {code})
    ensures o.Ok? ==> forall changes :: ReportedSoFar(r, s, done, changes) ==>
      ReportedSoFar(r, s, done + {code}, changes + o.value.lines)
    ensures old(db.SequenceAhead()) ==> db.SequenceAhead() && o.Ok?
    ensures o.Err? ==> o.error == WriteFailed
    ensures o.Ok? ==> (o.value.isNew <==> !HasPermission(s, code))
    ensures o.Ok? ==> o.value.linked == if dryRun && o.value.isNew then 0 else |MissingApis(r, s, code)|
    ensures o.Ok? ==> o.value.unlinked == |StaleApis(r, s, code)|
  {
    hide Resolve, Expected, ExpectedCodes, ReportedSoFar, Reported, MissingApis, StaleApis, BoundApis, InProgress,
      State.Valid;
    if HasPermission(s, code) {
      var p :| p in s.permissions && s.permissions[p].code == code;
      o := AlignBound(db, r, s, code, p, ids, dryRun, done);
      return;
    }
    assert forall p :: p in s.permissions ==> s.permissions[p].code != code;
    hide *;
    NewCounts(r, s, code);
    InsertReports(r, s, done, code, |ids|);
    if dryRun {
      return Ok(CodeOutcome({Insert(code, |ids|)}, true, 0, 0));
    }
    o := AlignNew(db, r, s, code, ids, done);
  }

  method SwitchOffAll(db: Database, disable: set<nat>)
    requires disable <= db.permissions.Keys
    modifies db`permissions
    ensures db.permissions.Keys == old(db.permissions.Keys)
    ensures forall p :: p in db.permissions ==>
      db.permissions[p] == if p in disable then old(db.permissions)[p].(status := "OFF") else old(db.permissions)[p]
  {
    var off := disable;
    while off != {}
      invariant off <= disable
      invariant db.permissions.Keys == old(db.permissions.Keys)
      invariant forall p :: p in db.permissions ==>
        db.permissions[p] == if p in disable - off then old(db.permissions)[p].(status := "OFF")
                             else old(db.permissions)[p]
      decreases off
    {
      var id :| id in off;
      db.SwitchOff(id);
      off := off - {id};
    }
  }

  /** The whole report: the lines of step 3 and those of step 4. */
  lemma {:induction false} WholeReport(r: Rules, s: State, lines: set<Change>, disable: set<nat>, protect: set<nat>,
                                       changes: set<Change>)
    requires ReportedSoFar(r, s, ExpectedCodes(r, s), lines)
    requires forall id :: id in disable <==> id in s.permissions && ToDisable(r, s, id)
    requires forall id :: id in protect <==> id in s.permissions && Superfluous(r, s, id) && !ToDisable(r, s, id)
    requires changes == lines + KeepLines(s, protect) + DisableLines(s, disable)
    ensures forall c :: c in changes <==> Reported(r, s, c)
  {
    hide ExpectedCodes, InScope, Resolve;
    forall c
      ensures c in changes <==> Reported(r, s, c)
    {
      assert c in KeepLines(s, protect) <==> c.Keep? && c.id in protect && c.code == s.permissions[c.id].code;
      assert c in DisableLines(s, disable) <==> c.Disable? && c.id in disable && c.code == s.permissions[c.id].code;
      if c.Link? && Reported(r, s, c) {
        ExpectedIsCode(r, s, c.code, c.api);
      }
    }
  }

  function KeepLines(s: State, ids: set<nat>): set<Change> {
    set id | id in ids && id in s.permissions :: Keep(s.permissions[id].code, id)
  }

  function DisableLines(s: State, ids: set<nat>): set<Change> {
    set id | id in ids && id in s.permissions :: Disable(s.permissions[id].code, id)
  }

  lemma {:induction false} ProgressStarts(r: Rules, s: State)
    requires s.Valid()
    ensures InProgress(r, s, s, {}) && ReportedSoFar(r, s, {}, {})
  {
    hide Expected;
  }

  lemma {:induction false} ProgressKeeps(r: Rules, s: State, now: State, done: set<string>)
    requires InProgress(r, s, now, done)
    ensures s.permissions.Keys <= now.permissions.Keys
  {
  }

  /** The counters of step 3 after the codes in done. */
  ghost predicate StepCounts(r: Rules, s: State, done: set<string>, dryRun: bool, inserted: nat, matched: nat,
                             linked: nat, unlinked: nat)
  {
    && inserted == |done * NewCodes(r, s)| && matched == |done - NewCodes(r, s)|
    && linked == |MissingLinks(r, s, if dryRun then done - NewCodes(r, s) else done)|
    && unlinked == |StaleLinks(r, s, done)|
  }

  lemma {:induction false} NoCounts(r: Rules, s: State, dryRun: bool)
    ensures StepCounts(r, s, {}, dryRun, 0, 0, 0, 0)
  {
    hide MissingApis, StaleApis, NewCodes;
    assert {} * NewCodes(r, s) == {} && {} - NewCodes(r, s) == {};
    assert MissingLinks(r, s, {}) == {} && StaleLinks(r, s, {}) == {};
  }

  lemma {:induction false} MoreCounts(r: Rules, s: State, done: set<string>, dryRun: bool, code: string, inserted: nat,
                                      matched: nat, linked: nat, unlinked: nat, c: CodeOutcome)
    requires StepCounts(r, s, done, dryRun, inserted, matched, linked, unlinked)
    requires code in ExpectedCodes(r, s) && code !in done && (c.isNew <==> !HasPermission(s, code))
    requires c.linked == if dryRun && c.isNew then 0 else |MissingApis(r, s, code)|
    requires c.unlinked == |StaleApis(r, s, code)|
    ensures StepCounts(r, s, done + {code}, dryRun, inserted + (if c.isNew then 1 else 0),
                       matched + (if c.isNew then 0 else 1), linked + c.linked, unlinked + c.unlinked)
  {
    var news := NewCodes(r, s);
    assert code in news <==> c.isNew;
    hide *;
    OneMoreStale(r, s, done, code);
    SplitCounts(done, code, news);
    if !c.isNew {
      OneMoreMissing(r, s, done - news, code);
    }
    if !dryRun {
      OneMoreMissing(r, s, done, code);
    }
    StepCountsAre(r, s, done, dryRun, inserted, matched, linked, unlinked);
    StepCountsAre(r, s, done + {code}, dryRun, inserted + (if c.isNew then 1 else 0),
                  matched + (if c.isNew then 0 else 1), linked + c.linked, unlinked + c.unlinked);
  }

  lemma {:induction false} SplitCounts(done: set<string>, code: string, news: set<string>)
    requires code !in done
    ensures (done + {code}) - news == (done - news) + (if code in news then {} else {code})
    ensures (done + {code}) * news == (done * news) + (if code in news then {code} else {})
    ensures |(done + {code}) - news| == |done - news| + (if code in news then 0 else 1)
    ensures |(done + {code}) * news| == |done * news| + (if code in news then 1 else 0)
    ensures code in news ==> (done + {code}) - news == done - news
  {
    assert (done + {code}) - news == (done - news) + (if code in news then {} else {code});
    assert (done + {code}) * news == (done * news) + (if code in news then {code} else {});
  }

  lemma {:induction false} StepCountsAre(r: Rules, s: State, done: set<string>, dryRun: bool, inserted: nat,
                                         matched: nat,
                                         linked: nat, unlinked: nat)
    ensures StepCounts(r, s, done, dryRun, inserted, matched, linked, unlinked) <==>
      (inserted == |done * NewCodes(r, s)| && matched == |done - NewCodes(r, s)|
       && linked == |MissingLinks(r, s, if dryRun then done - NewCodes(r, s) else done)|
       && unlinked == |StaleLinks(r, s, done)|)
  {
    hide NewCodes, MissingLinks, StaleLinks;
  }

  /** Step 3 over all expected codes, in whatever order the map is walked. */
  method AlignCodes(db: Database, r: Rules, s: State, expected: map<string, set<nat>>, dryRun: bool)
    returns (o: Result<CodeOutcome, AlignError>, inserted: nat, matched: nat)
    requires s.Valid() && db.Now() == s
    requires expected.Keys == ExpectedCodes(r, s)
    requires forall code :: code in expected ==> expected[code] == Expected(r, s, code)
    modifies db
    ensures dryRun ==> db.Now() == s && o.Ok?
    ensures o.Ok? ==> StepCounts(r, s, ExpectedCodes(r, s), dryRun, inserted, matched, o.value.linked, o.value.unlinked)
    ensures o.Ok? ==> ReportedSoFar(r, s, ExpectedCodes(r, s), o.value.lines)
    ensures o.Ok? && !dryRun ==> InProgress(r, s, db.Now(), ExpectedCodes(r, s))
    ensures old(db.SequenceAhead()) ==> o.Ok?
    ensures o.Err? ==> o.error == WriteFailed
  {
    hide *;
    var changes: set<Change> := {};
    var linked: nat, unlinked: nat := 0, 0;
    inserted, matched := 0, 0;
    var todo := expected.Keys;
    ghost var done: set<string> := {};
    ProgressStarts(r, s);
    NoCounts(r, s, dryRun);
    while todo != {}
      invariant todo <= expected.Keys && done == expected.Keys - todo
      invariant StepCounts(r, s, done, dryRun, inserted, matched, linked, unlinked)
      invariant dryRun ==> db.Now() == s
      invariant !dryRun ==> InProgress(r, s, db.Now(), done)
      invariant ReportedSoFar(r, s, done, changes)
      invariant old(db.SequenceAhead()) ==> db.SequenceAhead()
      decreases todo
    {
      var code :| code in todo;
      todo := todo - {code};
      var c := AlignCode(db, r, s, code, expected[code], dryRun, done);
      if c.Err? {
        o := Err(WriteFailed);
        return;
      }
      MoreCounts(r, s, done, dryRun, code, inserted, matched, linked, unlinked, c.value);
      changes, linked, unlinked := changes + c.value.lines, linked + c.value.linked, unlinked + c.value.unlinked;
      if c.value.isNew {
        inserted := inserted + 1;
      } else {
        matched := matched + 1;
      }
      done := done + {code};
    }
    assert done == ExpectedCodes(r, s);
    o := Ok(CodeOutcome(changes, true, linked, unlinked));
  }

  /** AlignPermissions. A refused run has written nothing; a dry run reports what a real run from the
      same state reports and writes nothing; a real run leaves the aligned state. Only an id sequence
      that lags behind the ids in use can make a real run fail half-way, for its caller to roll back. */
  method AlignPermissions(db: Database, r: Rules, dryRun: bool) returns (res: Result<AlignResult, AlignError>)
    requires db.Now().Valid()
    modifies db
    ensures HasConflict(r, old(db.Now())) ==> res == Err(Conflicts)
    ensures !HasConflict(r, old(db.Now())) && HasMissing(r, old(db.Now())) ==> res == Err(Missing)
    ensures res.Err? && res.error != WriteFailed ==>
      (HasConflict(r, old(db.Now())) || HasMissing(r, old(db.Now()))) && db.Now() == old(db.Now())
    ensures dryRun ==> db.Now() == old(db.Now()) && res != Err(WriteFailed)
    ensures old(db.SequenceAhead()) ==> res != Err(WriteFailed)
    ensures res.Ok? ==> forall c :: c in res.value.changes <==> Reported(r, old(db.Now()), c)
    ensures res.Ok? ==> Counted(r, old(db.Now()), dryRun, res.value)
    ensures res.Ok? && !dryRun ==> Aligned(r, old(db.Now()), db.Now())
  {
    hide Resolve, Expected, ExpectedCodes, InScope, HasConflict, HasMissing, InProgress, ReportedSoFar, Reported,
         Aligned, ToDisable, Superfluous, NewCodes, MissingLinks, StaleLinks;
    var s := db.Now();
    var g := LoadExpected(r, s);
    if g.conflict {
      return Err(Conflicts);
    }
    if g.missing {
      return Err(Missing);
    }
    var o, inserted, matched := AlignCodes(db, r, s, g.expected, dryRun);
    if o.Err? {
      return Err(WriteFailed);
    }
    var disable, protect := DecideDisable(r, s, g.inScope, g.expected.Keys);
    var changes := o.value.lines + KeepLines(s, protect) + DisableLines(s, disable);
    WholeReport(r, s, o.value.lines, disable, protect, changes);
    if !dryRun {
      ghost var before := db.Now();
      ProgressKeeps(r, s, before, ExpectedCodes(r, s));
      SwitchOffAll(db, disable);
      SwitchedOff(r, s, before, db.Now(), disable);
    }
    assert disable == set id | id in s.permissions && ToDisable(r, s, id);
    assert protect == set id | id in s.permissions && Superfluous(r, s, id) && !ToDisable(r, s, id);
    NewAreExpected(r, s);
    res := Ok(AlignResult(changes, inserted, |disable|, |protect|, o.value.linked, o.value.unlinked, matched));
  }

  lemma {:induction false} NewAreExpected(r: Rules, s: State)
    ensures ExpectedCodes(r, s) * NewCodes(r, s) == NewCodes(r, s)
  {
    hide ExpectedCodes;
  }

  /** So the dry run announces every counter of the real run except linked, which it puts lower by the
      links of the codes to insert. */
  lemma {:induction false} DryRunCounts(r: Rules, s: State, dry: AlignResult, actual: AlignResult)
    requires Counted(r, s, true, dry) && Counted(r, s, false, actual)
    ensures dry.(linked := actual.linked, changes := actual.changes) == actual
    ensures actual.linked == dry.linked + |MissingLinks(r, s, NewCodes(r, s))|
  {
    hide ExpectedCodes, MissingApis, HasPermission, StaleLinks, ToDisable, Superfluous;
    var codes, added := ExpectedCodes(r, s), NewCodes(r, s);
    var before, missing, all := MissingLinks(r, s, codes - added), MissingLinks(r, s, added), MissingLinks(r, s, codes);
    assert all == before + missing && before !! missing;
  }
}
