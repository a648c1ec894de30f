/** A dry run and the real run after it are two processes, each with an index of its own
    (sql/bootstrap/permissions_align.go:55-175 over pkg/permcode/permcode.go:130-168): what they report
    and do is the same under both exactly when the tables settle the codes of the routes. */
module AlignOrder {
  import opened Basics
  import opened Permcode
  import opened PermissionsAlign
  import opened ResolverOrder

  /** The rules of two processes over the same tables. */
  ghost predicate SameTables(r: Rules, q: Rules) {
    && r.resolver.Valid() && q.resolver.Valid()
    && q.resolver.tables == r.resolver.tables && q.exemptIndex == r.exemptIndex
  }

  /** The tables settle the code of every active route. */
  ghost predicate AllSettled(t: Tables, s: State) {
    forall a :: a in s.apis && s.apis[a].active ==> CodeSettled(t, s.apis[a].verb, s.apis[a].path)
  }

  /** The two refuse the same states, and report the same changes and counters where they do not. */
  ghost predicate SameRun(r: Rules, q: Rules, s: State) {
    && HasConflict(r, s) == HasConflict(q, s) && HasMissing(r, s) == HasMissing(q, s)
    && (!HasConflict(r, s) ==>
          && (forall c :: Reported(r, s, c) <==> Reported(q, s, c))
          && (forall dryRun, res :: Counted(r, s, dryRun, res) <==> Counted(q, s, dryRun, res))
          && (forall u :: Aligned(r, s, u) <==> Aligned(q, s, u)))
  }

  /** What the verdict on an interface says of its outcome. */
  lemma {:induction false} OutcomeByVerdict(r: Rules, api: Api)
    ensures var e, v := r.Outcome(api), VerdictOf(r.resolver, api.verb, api.path);
      && (v.Code? <==> e.Ok?) && (e.Ok? ==> e.value.entry.code == v.code)
      && (v.Conflicted? <==> e.Err? && e.error.ConflictError?)
      && (v.Missed? <==> e.Err? && e.error.MissingError?)
  {
    hide Resolve;
  }

  ghost predicate SameOutcome(r: Rules, q: Rules, api: Api) {
    var e, f := r.Outcome(api), q.Outcome(api);
    && (e.Ok? <==> f.Ok?) && (e.Ok? ==> e.value.entry.code == f.value.entry.code)
    && (e.Err? && e.error.ConflictError? <==> f.Err? && f.error.ConflictError?)
    && (r.Exempt(api) <==> q.Exempt(api))
  }

  lemma {:induction false} SettledOutcomes(r: Rules, q: Rules, s: State)
    requires SameTables(r, q) && AllSettled(r.resolver.tables, s)
    ensures forall a :: a in s.apis && s.apis[a].active ==> SameOutcome(r, q, s.apis[a])
  {
    hide CodeSettled, VerdictOf, Resolve, Resolver.Valid;
    forall a | a in s.apis && s.apis[a].active ensures SameOutcome(r, q, s.apis[a]) {
      var api := s.apis[a];
      SettledSame(r.resolver.tables, r.resolver, q.resolver, api.verb, api.path);
      OutcomeByVerdict(r, api);
      OutcomeByVerdict(q, api);
    }
  }

  lemma {:induction false} SameSets(r: Rules, q: Rules, s: State)
    requires forall a :: a in s.apis && s.apis[a].active ==> SameOutcome(r, q, s.apis[a])
    ensures HasConflict(r, s) == HasConflict(q, s) && HasMissing(r, s) == HasMissing(q, s)
    ensures InScope(r, s) == InScope(q, s) && ExpectedCodes(r, s) == ExpectedCodes(q, s)
    ensures forall code :: Expected(r, s, code) == Expected(q, s, code)
  {
    hide Resolve, IsExempt;
  }

  /** Reports, counters and the state to reach are functions of those sets. */
  lemma {:induction false} SetsDecide(r: Rules, q: Rules, s: State)
    requires HasConflict(r, s) == HasConflict(q, s) && HasMissing(r, s) == HasMissing(q, s)
    requires InScope(r, s) == InScope(q, s) && ExpectedCodes(r, s) == ExpectedCodes(q, s)
    requires forall code :: Expected(r, s, code) == Expected(q, s, code)
    ensures SameRun(r, q, s)
  {
    hide Expected, ExpectedCodes, InScope, HasConflict, HasMissing;
    forall id | id in s.permissions
      ensures ToDisable(r, s, id) == ToDisable(q, s, id) && Superfluous(r, s, id) == Superfluous(q, s, id)
    {
    }
    forall c ensures Reported(r, s, c) <==> Reported(q, s, c) {
    }
    SameCounts(r, q, s);
    forall u ensures Aligned(r, s, u) <==> Aligned(q, s, u) {
      SameTarget(r, q, s, u);
    }
  }

  lemma {:induction false} SameTarget(r: Rules, q: Rules, s: State, u: State)
    requires InScope(r, s) == InScope(q, s) && ExpectedCodes(r, s) == ExpectedCodes(q, s)
    requires forall code :: Expected(r, s, code) == Expected(q, s, code)
    ensures Aligned(r, s, u) <==> Aligned(q, s, u)
  {
    hide Expected, ExpectedCodes, InScope, State.Valid;
    forall id | id in s.permissions ensures Settled(r, s, id) == Settled(q, s, id) {
    }
  }

  lemma {:induction false} SameCounts(r: Rules, q: Rules, s: State)
    requires ExpectedCodes(r, s) == ExpectedCodes(q, s) && forall code :: Expected(r, s, code) == Expected(q, s, code)
    requires forall id :: id in s.permissions ==>
      ToDisable(r, s, id) == ToDisable(q, s, id) && Superfluous(r, s, id) == Superfluous(q, s, id)
    ensures forall dryRun, res :: Counted(r, s, dryRun, res) <==> Counted(q, s, dryRun, res)
  {
    hide Expected, ExpectedCodes, ToDisable, Superfluous;
    assert NewCodes(r, s) == NewCodes(q, s);
    forall code
      ensures MissingApis(r, s, code) == MissingApis(q, s, code) && StaleApis(r, s, code) == StaleApis(q, s, code)
    {
    }
    hide MissingApis, StaleApis, NewCodes;
    forall codes
      ensures MissingLinks(r, s, codes) == MissingLinks(q, s, codes)
        && StaleLinks(r, s, codes) == StaleLinks(q, s, codes)
    {
    }
    assert (set id | id in s.permissions && ToDisable(r, s, id))
        == (set id | id in s.permissions && ToDisable(q, s, id));
    assert (set id | id in s.permissions && Superfluous(r, s, id) && !ToDisable(r, s, id))
        == (set id | id in s.permissions && Superfluous(q, s, id) && !ToDisable(q, s, id));
  }

  /** Where the tables settle the codes, no index makes a difference. */
  lemma {:induction false} AnyIndexSameRun(r: Rules, q: Rules, s: State)
    requires SameTables(r, q) && AllSettled(r.resolver.tables, s)
    ensures SameRun(r, q, s)
  {
    hide SameTables, AllSettled, SameOutcome, SameRun;
    SettledOutcomes(r, q, s);
    SameSets(r, q, s);
    SetsDecide(r, q, s);
  }

  // ---------- Where they do not ----------

  function OneApi(api: Api): State {
    State(map[0 := api], map[], {})
  }

  lemma {:induction false} OneApiSets(r: Rules, api: Api)
    requires api.active
    ensures var s, v := OneApi(api), VerdictOf(r.resolver, api.verb, api.path);
      && (HasConflict(r, s) <==> v.Conflicted?)
      && ExpectedCodes(r, s) == (if v.Code? then {v.code} else {})
      && (v.Code? ==> |Expected(r, s, v.code)| == 1)
  {
    OutcomeByVerdict(r, api);
    var s, v := OneApi(api), VerdictOf(r.resolver, api.verb, api.path);
    assert s.apis.Keys == {0} && s.apis[0] == api;
    hide Resolve, VerdictOf;
    if v.Code? {
      assert Expected(r, s, v.code) == {0};
      assert InScope(r, s) == {0};
    } else {
      assert InScope(r, s) == {};
    }
  }

  lemma {:induction false} DifferentRuns(r: Rules, q: Rules, api: Api)
    requires api.active
    requires VerdictOf(r.resolver, api.verb, api.path) != VerdictOf(q.resolver, api.verb, api.path)
    ensures !SameRun(r, q, OneApi(api))
  {
    var s, v, w := OneApi(api), VerdictOf(r.resolver, api.verb, api.path), VerdictOf(q.resolver, api.verb, api.path);
    OneApiSets(r, api);
    OneApiSets(q, api);
    hide VerdictOf, HasConflict, ExpectedCodes, Expected, InScope, HasMissing, Counted, Aligned, ToDisable, Superfluous;
    if v.Code? {
      assert Reported(r, s, Insert(v.code, 1)) && !Reported(q, s, Insert(v.code, 1));
    } else if w.Code? {
      assert Reported(q, s, Insert(w.code, 1)) && !Reported(r, s, Insert(w.code, 1));
    }
  }

  /** On every state all processes over the tables refuse, report and do the same exactly when the
      tables settle the code of every route. The code looks only for conflicts of a route it meets, not
      for those recorded when the index was built: two entries of one table under one normal form with
      two codes pass unseen, and the report is then a matter of the order of the map. */
  lemma {:induction false} IndexMattersIff(t: Tables, exemptIndex: set<string>)
    ensures
      (forall r, q, s :: IsRules(t, exemptIndex, r) && IsRules(t, exemptIndex, q) ==> SameRun(r, q, s))
      <==> (forall verb, path :: CodeSettled(t, verb, path))
  {
    hide CodeSettled, SameRun, VerdictOf;
    if forall verb, path :: CodeSettled(t, verb, path) {
      forall r, q, s | IsRules(t, exemptIndex, r) && IsRules(t, exemptIndex, q) ensures SameRun(r, q, s) {
        AnyIndexSameRun(r, q, s);
      }
    }
    forall verb, path | !CodeSettled(t, verb, path)
      ensures exists r, q, s :: IsRules(t, exemptIndex, r) && IsRules(t, exemptIndex, q) && !SameRun(r, q, s)
    {
      var r0, q0 := UnsettledDiffer(t, verb, path);
      var r, q, s := Rules(r0, exemptIndex), Rules(q0, exemptIndex), OneApi(Api(verb, path, true));
      DifferentRuns(r, q, Api(verb, path, true));
      assert IsRules(t, exemptIndex, r) && IsRules(t, exemptIndex, q);
    }
  }

  ghost predicate IsRules(t: Tables, exemptIndex: set<string>, r: Rules) {
    r.resolver.tables == t && r.resolver.Valid() && r.exemptIndex == exemptIndex
  }

  /** Without recorded conflicts they are. */
  lemma {:induction false} NoConflictsSameRun(r: Rules, q: Rules, s: State)
    requires SameTables(r, q) && NoConflicts(r.resolver.tables)
    ensures SameRun(r, q, s)
  {
    hide CodeSettled, NoConflicts, Resolver.Valid, SameRun;
    forall a | a in s.apis && s.apis[a].active
      ensures CodeSettled(r.resolver.tables, s.apis[a].verb, s.apis[a].path)
    {
      NoConflictsSettle(r.resolver.tables, s.apis[a].verb, s.apis[a].path);
    }
    AnyIndexSameRun(r, q, s);
  }

  /** A dry run of one process and the real run of another, from one state: one set of changes, and one
      set of counters but for the links that a dry run does not count. */
  lemma {:induction false} TwoProcessesAgree(r: Rules, q: Rules, s: State, dry: AlignResult, actual: AlignResult)
    requires SameTables(r, q) && NoConflicts(r.resolver.tables) && !HasConflict(r, s)
    requires (forall c :: c in dry.changes <==> Reported(r, s, c)) && Counted(r, s, true, dry)
    requires (forall c :: c in actual.changes <==> Reported(q, s, c)) && Counted(q, s, false, actual)
    ensures dry.changes == actual.changes && dry.(linked := actual.linked) == actual
    ensures actual.linked == dry.linked + |MissingLinks(r, s, NewCodes(r, s))|
  {
    NoConflictsSameRun(r, q, s);
    assert Counted(r, s, false, actual) && forall c :: Reported(r, s, c) <==> Reported(q, s, c);
    hide *;
    DryRunCounts(r, s, dry, actual);
    assert forall c :: c in dry.changes <==> c in actual.changes;
  }

  /** A second run by another process inserts, links, unlinks and disables nothing. */
  lemma {:induction false} SecondProcessDoesNothing(r: Rules, q: Rules, s: State, t: State, c: Change)
    requires SameTables(r, q) && NoConflicts(r.resolver.tables) && !HasConflict(r, s)
    requires s.Valid() && Aligned(r, s, t)
    ensures Reported(q, t, c) <==> c.Keep? && Reported(q, s, c)
  {
    NoConflictsSameRun(r, q, s);
    hide SameTables, NoConflicts, HasConflict, Reported, Counted, Aligned;
    SecondRunDoesNothing(q, s, t, c);
  }
}
