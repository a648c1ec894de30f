/** What of a resolved route depends on the order in which the maps behind the index were walked: each
    process builds its own index (pkg/permcode/permcode.go:130-168), and Resolve reads it. */
module ResolverOrder {
  import opened Basics
  import opened Permcode

  // ---------- Indexes ----------

  lemma {:induction false} AnyIndex(src: map<string, Entry>) returns (dst: map<string, Entry>)
    ensures Indexes(src, dst)
    decreases |src|
  {
    hide Normalized;
    if src == map[] {
      dst := map[];
    } else {
      var k :| k in src;
      var rest := src - {k};
      assert src.Keys == rest.Keys + {k};
      var less := AnyIndex(rest);
      dst := less[Normalized(k) := src[k]];
      Indexed(src, rest, k, less);
    }
  }

  lemma {:induction false} Indexed(src: map<string, Entry>, rest: map<string, Entry>, k: string, less: map<string,
                                   Entry>)
    requires k in src && rest == src - {k} && Indexes(rest, less)
    ensures Indexes(src, less[Normalized(k) := src[k]])
  {
    hide Normalized;
    var dst := less[Normalized(k) := src[k]];
    forall n | n in dst ensures exists j :: j in src && Normalized(j) == n && dst[n] == src[j] {
      if n != Normalized(k) {
        var j :| j in rest && Normalized(j) == n && less[n] == rest[j];
        assert j in src && dst[n] == src[j];
      }
    }
  }

  /** Some walk of the map leaves the entry of j in the index. */
  lemma {:induction false} IndexWith(src: map<string, Entry>, j: string) returns (dst: map<string, Entry>)
    requires j in src
    ensures Indexes(src, dst) && dst[Normalized(j)] == src[j]
  {
    hide Normalized;
    var any := AnyIndex(src);
    dst := any[Normalized(j) := src[j]];
    forall n | n in dst ensures exists k :: k in src && Normalized(k) == n && dst[n] == src[k] {
      if n != Normalized(j) {
        assert dst[n] == any[n];
      }
    }
  }

  /** Some entry of the table has the normalised key. */
  ghost predicate Has(src: map<string, Entry>, n: string) {
    exists k :: k in src && Normalized(k) == n
  }

  /** The entries of the table with the normalised key agree on the code. */
  ghost predicate OneCode(src: map<string, Entry>, n: string) {
    forall j, k :: j in src && k in src && Normalized(j) == n && Normalized(k) == n ==> src[j].code == src[k].code
  }

  ghost predicate OneScope(src: map<string, Entry>, n: string) {
    forall j, k :: j in src && k in src && Normalized(j) == n && Normalized(k) == n
      ==> src[j].scopeKind == src[k].scopeKind
  }

  ghost predicate NoCommonCode(a: map<string, Entry>, b: map<string, Entry>, n: string) {
    forall j, k :: j in a && k in b && Normalized(j) == n && Normalized(k) == n ==> a[j].code != b[k].code
  }

  ghost predicate IsIndex(t: Tables, r: Resolver) {
    r.tables == t && r.Valid()
  }

  // ---------- The code ----------

  datatype Verdict = Code(code: string) | Conflicted | Missed

  function VerdictOf(r: Resolver, verb: string, path: string): Verdict {
    match Resolve(r, verb, path)
    case Ok(e) => Code(e.entry.code)
    case Err(ConflictError(_, _, _)) => Conflicted
    case Err(MissingError(_)) => Missed
  }

  predicate Exact(t: Tables, verb: string, path: string) {
    Key(verb, path) in t.management || Key(verb, path) in t.capability
  }

  /** What can be checked on the tables: the route is listed as it is spelled, or each table has one
      code for its normal form, or the two tables conflict whichever entries are indexed. */
  ghost predicate CodeSettled(t: Tables, verb: string, path: string) {
    var n := NormalKey(verb, path);
    || Exact(t, verb, path)
    || (OneCode(t.management, n) && OneCode(t.capability, n))
    || (Has(t.management, n) && Has(t.capability, n) && NoCommonCode(t.management, t.capability, n))
  }

  /** The index has an entry of the table, exactly when there is one. */
  lemma {:induction false} FoundInIndex(src: map<string, Entry>, dst: map<string, Entry>, n: string)
    requires Indexes(src, dst)
    ensures n in dst <==> Has(src, n)
    ensures n in dst ==> exists k :: k in src && Normalized(k) == n && src[k] == dst[n]
    ensures Holds(src, dst, n)
  {
    hide Normalized;
  }

  lemma {:induction false} VerdictByIndex(r: Resolver, verb: string, path: string)
    requires r.Valid() && !Exact(r.tables, verb, path)
    ensures var n := NormalKey(verb, path);
      VerdictOf(r, verb, path) ==
        if n in r.management && n in r.capability then
          if r.management[n].code == r.capability[n].code then Code(r.management[n].code) else Conflicted
        else if n in r.management then Code(r.management[n].code)
        else if n in r.capability then Code(r.capability[n].code)
        else Missed
  {
    hide Key, NormalKey;
  }

  /** A route that is listed as it is spelled: two codes are a conflict, and management wins over capability. */
  lemma {:induction false} ExactVerdict(r: Resolver, verb: string, path: string)
    requires Exact(r.tables, verb, path)
    ensures var k, t := Key(verb, path), r.tables;
      if k in t.management && k in t.capability && t.management[k].code != t.capability[k].code then
        Resolve(r, verb, path) == Err(ConflictError(k, t.management[k].code, t.capability[k].code))
      else
        && Resolve(r, verb, path).Ok?
        && var e := Resolve(r, verb, path).value;
          && e.verb == Method(verb) && e.path == path
          && (k in t.management ==> e.source == Management && e.entry == t.management[k])
          && (k !in t.management ==> e.source == Capability && e.entry == t.capability[k])
  {
    hide Key, NormalKey;
  }

  lemma {:induction false} ExactSame(t: Tables, r: Resolver, q: Resolver, verb: string, path: string)
    requires IsIndex(t, r) && IsIndex(t, q) && Exact(t, verb, path)
    ensures Resolve(r, verb, path) == Resolve(q, verb, path)
  {
    hide Key, NormalKey, Resolver.Valid;
  }

  lemma {:induction false} SettledSame(t: Tables, r: Resolver, q: Resolver, verb: string, path: string)
    requires IsIndex(t, r) && IsIndex(t, q) && CodeSettled(t, verb, path)
    ensures VerdictOf(r, verb, path) == VerdictOf(q, verb, path)
  {
    if Exact(t, verb, path) {
      ExactSame(t, r, q, verb, path);
      hide *;
    } else {
      hide Key, NormalKey, Normalized, VerdictOf, CodeSettled, Has;
      var n := NormalKey(verb, path);
      VerdictByIndex(r, verb, path);
      VerdictByIndex(q, verb, path);
      FoundInIndex(t.management, r.management, n);
      FoundInIndex(t.management, q.management, n);
      FoundInIndex(t.capability, r.capability, n);
      FoundInIndex(t.capability, q.capability, n);
      hide IsIndex, Resolver.Valid, Indexes;
      SameCodes(t, r, q, verb, path);
    }
  }

  /** Whichever entries two indexes hold, the codes agree or disagree in both. */
  lemma {:induction false} SameCodes(t: Tables, r: Resolver, q: Resolver, verb: string, path: string)
    requires CodeSettled(t, verb, path) && !Exact(t, verb, path)
    requires var n := NormalKey(verb, path);
      Holds(t.management, r.management, n) && Holds(t.management, q.management, n)
    requires var n := NormalKey(verb, path);
      Holds(t.capability, r.capability, n) && Holds(t.capability, q.capability, n)
    ensures var n := NormalKey(verb, path);
      && (n in r.management <==> n in q.management) && (n in r.capability <==> n in q.capability)
      && (n in r.management && n in r.capability ==>
            if r.management[n].code == r.capability[n].code
            then q.management[n].code == q.capability[n].code == r.management[n].code
            else q.management[n].code != q.capability[n].code)
      && (n in r.management && n !in r.capability ==> q.management[n].code == r.management[n].code)
      && (n !in r.management && n in r.capability ==> q.capability[n].code == r.capability[n].code)
  {
    hide Key, NormalKey, Normalized, Exact;
  }

  ghost predicate Holds(src: map<string, Entry>, dst: map<string, Entry>, n: string) {
    && (n in dst <==> Has(src, n))
    && (n in dst ==> exists k :: k in src && Normalized(k) == n && src[k] == dst[n])
  }

  /** An index that has the entries of j and k, where they are given. */
  lemma {:induction false} ResolverWith(t: Tables, j: Option<string>, k: Option<string>) returns (r: Resolver)
    requires (j.Some? ==> j.value in t.management) && (k.Some? ==> k.value in t.capability)
    ensures IsIndex(t, r)
    ensures j.Some? ==>
      Normalized(j.value) in r.management && r.management[Normalized(j.value)] == t.management[j.value]
    ensures k.Some? ==>
      Normalized(k.value) in r.capability && r.capability[Normalized(k.value)] == t.capability[k.value]
  {
    hide Normalized;
    var m, c;
    if j.Some? {
      m := IndexWith(t.management, j.value);
    } else {
      m := AnyIndex(t.management);
    }
    if k.Some? {
      c := IndexWith(t.capability, k.value);
    } else {
      c := AnyIndex(t.capability);
    }
    r := Resolver(t, m, c);
    assert (j.Some? ==> Normalized(j.value) in m) && (k.Some? ==> Normalized(k.value) in c);
  }

  /** Two indexes that answer differently, when the code is not settled. */
  lemma {:induction false} UnsettledDiffer(t: Tables, verb: string, path: string) returns (r: Resolver, q: Resolver)
    requires !CodeSettled(t, verb, path)
    ensures IsIndex(t, r) && IsIndex(t, q) && VerdictOf(r, verb, path) != VerdictOf(q, verb, path)
  {
    hide Key, NormalKey, Normalized, VerdictOf;
    var n := NormalKey(verb, path);
    if Has(t.management, n) && Has(t.capability, n) {
      var a, b :| a in t.management && b in t.capability && Normalized(a) == n && Normalized(b) == n
                  && t.management[a].code == t.capability[b].code;
      r := ResolverWith(t, Some(a), Some(b));
      if !OneCode(t.management, n) {
        var j :| j in t.management && Normalized(j) == n && t.management[j].code != t.management[a].code;
        q := ResolverWith(t, Some(j), Some(b));
      } else {
        var k :| k in t.capability && Normalized(k) == n && t.capability[k].code != t.capability[b].code;
        q := ResolverWith(t, Some(a), Some(k));
      }
    } else if !OneCode(t.management, n) {
      var j, k :| j in t.management && k in t.management && Normalized(j) == n && Normalized(k) == n
                  && t.management[j].code != t.management[k].code;
      r := ResolverWith(t, Some(j), None);
      q := ResolverWith(t, Some(k), None);
      FoundInIndex(t.capability, r.capability, n);
      FoundInIndex(t.capability, q.capability, n);
    } else {
      var j, k :| j in t.capability && k in t.capability && Normalized(j) == n && Normalized(k) == n
                  && t.capability[j].code != t.capability[k].code;
      r := ResolverWith(t, None, Some(j));
      q := ResolverWith(t, None, Some(k));
      FoundInIndex(t.management, r.management, n);
      FoundInIndex(t.management, q.management, n);
    }
    VerdictByIndex(r, verb, path);
    VerdictByIndex(q, verb, path);
  }

  /** Every index gives a route the same code, conflict or miss exactly when the tables settle it. */
  lemma {:induction false} CodeSettledIff(t: Tables, verb: string, path: string)
    ensures (forall r, q :: IsIndex(t, r) && IsIndex(t, q) ==> VerdictOf(r, verb, path) == VerdictOf(q, verb, path))
       <==> CodeSettled(t, verb, path)
  {
    hide CodeSettled, VerdictOf, IsIndex;
    if CodeSettled(t, verb, path) {
      forall r, q | IsIndex(t, r) && IsIndex(t, q) ensures VerdictOf(r, verb, path) == VerdictOf(q, verb, path) {
        SettledSame(t, r, q, verb, path);
      }
    } else {
      var r, q := UnsettledDiffer(t, verb, path);
    }
  }

  /** Tables without recorded conflicts settle every route. */
  lemma {:induction false} NoConflictsSettle(t: Tables, verb: string, path: string)
    requires NoConflicts(t)
    ensures CodeSettled(t, verb, path)
  {
    hide Normalized, Key, NormalKey;
  }

  // ---------- The scope ----------

  function ScopeOf(r: Resolver, verb: string, path: string): Option<string> {
    match Resolve(r, verb, path)
    case Ok(e) => Some(e.entry.scopeKind)
    case Err(_) => None
  }

  /** The route is listed as it is spelled, or the table that decides has one scope for its normal form. */
  ghost predicate ScopeSettled(t: Tables, verb: string, path: string) {
    var n := NormalKey(verb, path);
    || Exact(t, verb, path)
    || (if Has(t.management, n) then OneScope(t.management, n) else OneScope(t.capability, n))
  }

  lemma {:induction false} ScopeByIndex(r: Resolver, verb: string, path: string)
    requires r.Valid() && NoConflicts(r.tables) && !Exact(r.tables, verb, path)
    ensures var n := NormalKey(verb, path);
      ScopeOf(r, verb, path) ==
        if n in r.management then Some(r.management[n].scopeKind)
        else if n in r.capability then Some(r.capability[n].scopeKind)
        else None
  {
    var n := NormalKey(verb, path);
    hide Key, NormalKey, Normalized;
    CrossTable(r.tables, r.management, r.capability);
    hide NoConflicts, Resolver.Valid;
  }

  lemma {:induction false} ScopeSettledSame(t: Tables, r: Resolver, q: Resolver, verb: string, path: string)
    requires IsIndex(t, r) && IsIndex(t, q) && NoConflicts(t) && ScopeSettled(t, verb, path)
    ensures ScopeOf(r, verb, path) == ScopeOf(q, verb, path)
  {
    if Exact(t, verb, path) {
      ExactSame(t, r, q, verb, path);
      hide *;
    } else {
      hide Key, NormalKey, Normalized, ScopeOf, NoConflicts;
      var n := NormalKey(verb, path);
      ScopeByIndex(r, verb, path);
      ScopeByIndex(q, verb, path);
      FoundInIndex(t.management, r.management, n);
      FoundInIndex(t.management, q.management, n);
      FoundInIndex(t.capability, r.capability, n);
      FoundInIndex(t.capability, q.capability, n);
    }
  }

  lemma {:induction false} ScopeUnsettledDiffer(t: Tables, verb: string, path: string) returns (r: Resolver,
                                                q: Resolver)
    requires NoConflicts(t) && !ScopeSettled(t, verb, path)
    ensures IsIndex(t, r) && IsIndex(t, q) && ScopeOf(r, verb, path) != ScopeOf(q, verb, path)
  {
    hide Key, NormalKey, Normalized, ScopeOf, NoConflicts;
    var n := NormalKey(verb, path);
    if Has(t.management, n) {
      var j, k :| j in t.management && k in t.management && Normalized(j) == n && Normalized(k) == n
                  && t.management[j].scopeKind != t.management[k].scopeKind;
      r := ResolverWith(t, Some(j), None);
      q := ResolverWith(t, Some(k), None);
    } else {
      var j, k :| j in t.capability && k in t.capability && Normalized(j) == n && Normalized(k) == n
                  && t.capability[j].scopeKind != t.capability[k].scopeKind;
      r := ResolverWith(t, None, Some(j));
      q := ResolverWith(t, None, Some(k));
      FoundInIndex(t.management, r.management, n);
      FoundInIndex(t.management, q.management, n);
    }
    ScopeByIndex(r, verb, path);
    ScopeByIndex(q, verb, path);
  }

  /** Every index gives a route the same scope exactly when the tables settle it. */
  lemma {:induction false} ScopeSettledIff(t: Tables, verb: string, path: string)
    requires NoConflicts(t)
    ensures (forall r, q :: IsIndex(t, r) && IsIndex(t, q) ==> ScopeOf(r, verb, path) == ScopeOf(q, verb, path))
       <==> ScopeSettled(t, verb, path)
  {
    hide ScopeSettled, ScopeOf, IsIndex, NoConflicts;
    if ScopeSettled(t, verb, path) {
      forall r, q | IsIndex(t, r) && IsIndex(t, q) ensures ScopeOf(r, verb, path) == ScopeOf(q, verb, path) {
        ScopeSettledSame(t, r, q, verb, path);
      }
    } else {
      var r, q := ScopeUnsettledDiffer(t, verb, path);
    }
  }

  // ---------- The scope and the spelling ----------

  /** The entry an exact key resolves to. */
  function Winner(t: Tables, k: string): Entry
    requires Listed(t, k)
  {
    if k in t.management then t.management[k] else t.capability[k]
  }

  /** Keys with one normal form win with one scope. */
  ghost predicate OneScopePerForm(t: Tables) {
    forall j, k :: Listed(t, j) && Listed(t, k) && Normalized(j) == Normalized(k)
      ==> Winner(t, j).scopeKind == Winner(t, k).scopeKind
  }

  /** The keys of the tables are what a request asks for: a method in capitals, a space, a path. */
  ghost predicate KeysSpelled(t: Tables) {
    forall k :: Listed(t, k) ==> exists verb, path :: BraceFree(Method(verb)) && k == Key(verb, path)
  }

  /** The scope is decided by the normal form of the request, under any two indexes. */
  ghost predicate FormDecidesScope(t: Tables) {
    forall r, q, v, one, w, two ::
      IsIndex(t, r) && IsIndex(t, q) && BraceFree(Method(v)) && BraceFree(Method(w))
        && NormalKey(v, one) == NormalKey(w, two)
      ==> ScopeOf(r, v, one) == ScopeOf(q, w, two)
  }

  /** What a request resolves to wins for some key with its normal form. */
  lemma {:induction false} ScopeIsWinners(t: Tables, r: Resolver, verb: string, path: string)
    requires IsIndex(t, r) && NoConflicts(t) && BraceFree(Method(verb))
    ensures var scope, n := ScopeOf(r, verb, path), NormalKey(verb, path);
      && (scope.Some? ==> exists k :: Listed(t, k) && Normalized(k) == n && Winner(t, k).scopeKind == scope.value)
      && (scope.None? ==> forall k :: Listed(t, k) ==> Normalized(k) != n)
  {
    var n := NormalKey(verb, path);
    NormalKeyIsNormalized(verb, path);
    if Exact(t, verb, path) {
      ExactScope(t, r, verb, path);
      hide Key, NormalKey, Normalized, ScopeOf, NoConflicts, Resolver.Valid;
      assert Listed(t, Key(verb, path));
    } else {
      ScopeByIndex(r, verb, path);
      FoundInIndex(t.management, r.management, n);
      FoundInIndex(t.capability, r.capability, n);
      hide Key, NormalKey, Normalized, ScopeOf, NoConflicts, Resolver.Valid;
      if Has(t.management, n) {
        var k :| k in t.management && Normalized(k) == n && t.management[k] == r.management[n];
        assert Listed(t, k);
      } else if Has(t.capability, n) {
        var k :| k in t.capability && Normalized(k) == n && t.capability[k] == r.capability[n];
        assert Listed(t, k) && k !in t.management;
      }
    }
  }

  lemma {:induction false} ExactScope(t: Tables, r: Resolver, verb: string, path: string)
    requires IsIndex(t, r) && NoConflicts(t) && Exact(t, verb, path)
    ensures ScopeOf(r, verb, path) == Some(Winner(t, Key(verb, path)).scopeKind)
  {
    hide Key, NormalKey, Resolver.Valid;
  }

  lemma {:induction false} OneScopeDecides(t: Tables)
    requires NoConflicts(t) && OneScopePerForm(t)
    ensures FormDecidesScope(t)
  {
    hide ScopeOf, NoConflicts, Normalized, NormalKey, IsIndex, Winner;
    forall r, q, v, one, w, two |
      IsIndex(t, r) && IsIndex(t, q) && BraceFree(Method(v)) && BraceFree(Method(w))
        && NormalKey(v, one) == NormalKey(w, two)
      ensures ScopeOf(r, v, one) == ScopeOf(q, w, two)
    {
      ScopeIsWinners(t, r, v, one);
      ScopeIsWinners(t, q, w, two);
    }
  }

  /** Without conflicts, the spelling of parameters and the order of the maps have no influence on the
      scope exactly when the keys with one normal form win with one scope. */
  lemma {:induction false} FormDecidesScopeIff(t: Tables)
    requires NoConflicts(t) && KeysSpelled(t)
    ensures FormDecidesScope(t) <==> OneScopePerForm(t)
  {
    hide ScopeOf, NoConflicts, Normalized, NormalKey, Winner, Key;
    if OneScopePerForm(t) {
      OneScopeDecides(t);
    }
    if FormDecidesScope(t) {
      var r := ResolverWith(t, None, None);
      forall j, k | Listed(t, j) && Listed(t, k) && Normalized(j) == Normalized(k)
        ensures Winner(t, j).scopeKind == Winner(t, k).scopeKind
      {
        var v, one :| BraceFree(Method(v)) && j == Key(v, one);
        var w, two :| BraceFree(Method(w)) && k == Key(w, two);
        NormalKeyIsNormalized(v, one);
        NormalKeyIsNormalized(w, two);
        ExactScope(t, r, v, one);
        ExactScope(t, r, w, two);
      }
    }
  }

  /** Some index can give the route this scope. */
  ghost predicate CanHaveScope(t: Tables, verb: string, path: string, scope: string) {
    var n := NormalKey(verb, path);
    if Exact(t, verb, path) then Winner(t, Key(verb, path)).scopeKind == scope
    else if Has(t.management, n) then HasScope(t.management, n, scope)
    else HasScope(t.capability, n, scope)
  }

  ghost predicate HasScope(src: map<string, Entry>, n: string, scope: string) {
    exists k :: k in src && Normalized(k) == n && src[k].scopeKind == scope
  }

  /** A scope that no entry for the route has is given by no index, any other by some. */
  lemma {:induction false} CanHaveScopeIff(t: Tables, verb: string, path: string, scope: string)
    requires NoConflicts(t)
    ensures CanHaveScope(t, verb, path, scope) <==> exists r :: IsIndex(t, r) && ScopeOf(r, verb, path) == Some(scope)
  {
    hide Key, NormalKey, Normalized, ScopeOf, NoConflicts;
    var n := NormalKey(verb, path);
    forall r | IsIndex(t, r) && ScopeOf(r, verb, path) == Some(scope) ensures CanHaveScope(t, verb, path, scope) {
      if Exact(t, verb, path) {
        ExactScope(t, r, verb, path);
      } else {
        ScopeByIndex(r, verb, path);
        FoundInIndex(t.management, r.management, n);
        FoundInIndex(t.capability, r.capability, n);
      }
    }
    if CanHaveScope(t, verb, path, scope) {
      var r := IndexGiving(t, verb, path, scope);
    }
  }

  lemma {:induction false} IndexGiving(t: Tables, verb: string, path: string, scope: string) returns (r: Resolver)
    requires NoConflicts(t) && CanHaveScope(t, verb, path, scope)
    ensures IsIndex(t, r) && ScopeOf(r, verb, path) == Some(scope)
  {
    hide Key, NormalKey, Normalized, ScopeOf, NoConflicts;
    var n := NormalKey(verb, path);
    if Exact(t, verb, path) {
      r := ResolverWith(t, None, None);
      ExactScope(t, r, verb, path);
    } else if Has(t.management, n) {
      var k :| k in t.management && Normalized(k) == n && t.management[k].scopeKind == scope;
      r := ResolverWith(t, Some(k), None);
      ScopeByIndex(r, verb, path);
    } else {
      var k :| k in t.capability && Normalized(k) == n && t.capability[k].scopeKind == scope;
      r := ResolverWith(t, None, Some(k));
      ScopeByIndex(r, verb, path);
      FoundInIndex(t.management, r.management, n);
    }
  }

  /** A table with two entries under one normal form and two codes, and a third spelling: the code is a
      matter of the order in which the table is walked. */
  lemma {:induction false} CodeCanBeUnsettled()
    ensures exists t, verb, path :: !CodeSettled(t, verb, path)
  {
    var a, b, c := "G /{a}", "G /{b}", "/{c}";
    var t := Tables(map[a := Entry("", "x", "", ""), b := Entry("", "y", "", "")], map[], map[]);
    Spelled();
    hide Normalized, Key, NormalKey;
    assert a in t.management && b in t.management && t.management[a].code == "x" && t.management[b].code == "y" by {
      assert a[4] != b[4];
    }
    assert "x"[0] != "y"[0];
    assert !Exact(t, "G", c) by {
      assert Key("G", c)[4] != a[4] && Key("G", c)[4] != b[4];
    }
    assert !OneCode(t.management, NormalKey("G", c));
    assert !Has(t.capability, NormalKey("G", c));
    assert !CodeSettled(t, "G", c);
  }

  lemma {:induction false} Spelled()
    ensures Key("G", "/{c}") == "G /{c}" && NormalKey("G", "/{c}") == Normalized("G /{a}") == Normalized("G /{b}")
  {
    var c := "/{c}";
    assert Trim(c) == c && Method("G") == "G";
    assert "G" + " " + c == "G /{c}";
    OneParameter("/", "c");
    OneParameter("G /", "a");
    OneParameter("G /", "b");
    assert "/" + ("{" + ("c" + "}")) == c;
    assert "G /" + ("{" + ("a" + "}")) == "G /{a}" && "G /" + ("{" + ("b" + "}")) == "G /{b}";
    assert "G" + " " + ("/" + "{}") == "G /" + "{}";
  }
}
