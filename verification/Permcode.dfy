/** The permission-code resolver: pkg/permcode/permcode.go. The two authoritative tables and the
    exempt list are parameters. */
module Permcode {
  import opened Basics

  // ---------- Keys ----------

  const SPACES: set<char> := {' ', '\t', '\n', '\U{0B}', '\U{0C}', '\r'}

  function Trim(s: string): string {
    TrimChars(s, SPACES)
  }

  function Upper(s: string): string {
    seq(|s|, i requires 0 <= i < |s| => if 'a' <= s[i] <= 'z' then (s[i] as int - 32) as char else s[i])
  }

  function Method(verb: string): string {
    Upper(Trim(verb))
  }

  function Key(verb: string, path: string): string {
    Method(verb) + " " + Trim(path)
  }

  /** The rest of a normalised path when depth braces are open. */
  function NormalizedFrom(s: string, depth: nat): string {
    if s == [] then []
    else if s[0] == '{' then (if depth == 0 then "{}" else "") + NormalizedFrom(s[1..], depth + 1)
    else if s[0] == '}' then NormalizedFrom(s[1..], if depth > 0 then depth - 1 else 0)
    else (if depth == 0 then [s[0]] else []) + NormalizedFrom(s[1..], depth)
  }

  function Normalized(path: string): string {
    if '{' !in path then path else NormalizedFrom(path, 0)
  }

  method NormalizePath(path: string) returns (b: string)
    ensures b == Normalized(path)
  {
    if '{' !in path {
      return path;
    }
    b := "";
    var depth := 0;
    for i := 0 to |path|
      invariant depth >= 0
      invariant NormalizedFrom(path, 0) == b + NormalizedFrom(path[i..], depth)
    {
      assert path[i..][1..] == path[i + 1..];
      var r := path[i];
      ghost var b0 := b;
      if r == '{' {
        if depth == 0 {
          b := b + "{}";
        }
        depth := depth + 1;
      } else if r == '}' {
        if depth > 0 {
          depth := depth - 1;
        }
      } else if depth == 0 {
        b := b + [r];
      }
      ghost var rest := NormalizedFrom(path[i + 1..], depth);
      assert (b0 + "{}") + rest == b0 + ("{}" + rest) && (b0 + [r]) + rest == b0 + ([r] + rest);
    }
  }

  function NormalKey(verb: string, path: string): string {
    Method(verb) + " " + Normalized(Trim(path))
  }

  predicate BraceFree(s: string) {
    '{' !in s && '}' !in s
  }

  lemma {:induction false} NormalizedTwiceFrom(s: string, depth: nat)
    ensures NormalizedFrom(NormalizedFrom(s, depth), 0) == NormalizedFrom(s, depth)
  {
    if s != [] {
      var t := NormalizedFrom(s, depth);
      if s[0] == '{' {
        var u := NormalizedFrom(s[1..], depth + 1);
        NormalizedTwiceFrom(s[1..], depth + 1);
        if depth == 0 {
          assert t[1..] == "}" + u && t[1..][1..] == u;
        } else {
          assert t == u;
        }
      } else if s[0] == '}' {
        NormalizedTwiceFrom(s[1..], if depth > 0 then depth - 1 else 0);
      } else {
        var u := NormalizedFrom(s[1..], depth);
        NormalizedTwiceFrom(s[1..], depth);
        assert t == if depth == 0 then [s[0]] + u else u;
      }
    }
  }

  lemma {:induction false} NormalizedTwice(path: string)
    ensures Normalized(Normalized(path)) == Normalized(path)
  {
    NormalizedTwiceFrom(path, 0);
  }

  lemma {:induction false} SkipName(name: string, rest: string, depth: nat)
    requires BraceFree(name) && depth > 0
    ensures NormalizedFrom(name + rest, depth) == NormalizedFrom(rest, depth)
  {
    if name == [] {
      assert name + rest == rest;
    } else {
      assert (name + rest)[1..] == name[1..] + rest;
      assert name[0] in name;
      SkipName(name[1..], rest, depth);
    }
  }

  lemma {:induction false} RenameFrom(before: string, one: string, two: string, after: string, depth: nat)
    requires BraceFree(one) && BraceFree(two)
    ensures NormalizedFrom(before + ("{" + (one + ("}" + after))), depth)
         == NormalizedFrom(before + ("{" + (two + ("}" + after))), depth)
  {
    var s, t := "{" + (one + ("}" + after)), "{" + (two + ("}" + after));
    if before == [] {
      assert before + s == s && before + t == t;
      assert s[1..] == one + ("}" + after) && t[1..] == two + ("}" + after);
      SkipName(one, "}" + after, depth + 1);
      SkipName(two, "}" + after, depth + 1);
    } else {
      assert (before + s)[1..] == before[1..] + s && (before + t)[1..] == before[1..] + t;
      RenameFrom(before[1..], one, two, after, if before[0] == '{' then depth + 1
                                               else if before[0] == '}' && depth > 0 then depth - 1 else depth);
    }
  }

  /** Paths that differ only in a parameter's name have one normal form. */
  lemma {:induction false} RenameParameter(before: string, one: string, two: string, after: string)
    requires BraceFree(one) && BraceFree(two)
    ensures Normalized(before + ("{" + (one + ("}" + after)))) == Normalized(before + ("{" + (two + ("}" + after))))
  {
    var s, t := before + ("{" + (one + ("}" + after))), before + ("{" + (two + ("}" + after)));
    assert s[|before|] == '{' && t[|before|] == '{';
    RenameFrom(before, one, two, after, 0);
  }

  lemma {:induction false} PlainPrefix(a: string, s: string)
    requires BraceFree(a)
    ensures NormalizedFrom(a + s, 0) == a + NormalizedFrom(s, 0)
  {
    if a == [] {
      assert a + s == s;
    } else {
      assert (a + s)[1..] == a[1..] + s && a[0] in a;
      PlainPrefix(a[1..], s);
      assert a + NormalizedFrom(s, 0) == [a[0]] + (a[1..] + NormalizedFrom(s, 0));
    }
  }

  /** Normalising a whole key is normalising its path, when the method has no braces. */
  lemma {:induction false} NormalKeyIsNormalized(verb: string, path: string)
    requires BraceFree(Method(verb))
    ensures Normalized(Key(verb, path)) == NormalKey(verb, path)
  {
    var a, p := Method(verb) + " ", Trim(path);
    assert '{' in a + p <==> '{' in p;
    PlainPrefix(a, p);
  }

  // ---------- The normalised index ----------

  datatype Entry = Entry(operation: string, code: string, module_: string, scopeKind: string)

  datatype Conflict = Conflict(key: string, managementCode: string, capabilityCode: string)

  datatype Tables = Tables(management: map<string, Entry>, capability: map<string, Entry>, exempt: map<string, string>)

  predicate Listed(t: Tables, k: string) {
    k in t.management || k in t.capability
  }

  /** dst holds, for every normalised key of src, one of the entries with that key: which one
      depends on the order in which the source map is walked. */
  ghost predicate Indexes(src: map<string, Entry>, dst: map<string, Entry>) {
    && (forall k :: k in src ==> Normalized(k) in dst)
    && (forall n :: n in dst ==> exists k :: k in src && Normalized(k) == n && dst[n] == src[k])
  }

  /** Entries with one normalised key agree on the code. */
  ghost predicate Agree(a: map<string, Entry>, b: map<string, Entry>) {
    forall k, j :: k in a && j in b && Normalized(k) == Normalized(j) ==> a[k].code == b[j].code
  }

  ghost predicate NoConflicts(t: Tables) {
    Agree(t.management, t.management) && Agree(t.capability, t.capability) && Agree(t.management, t.capability)
  }

  /** One more entry whose normalised key is already taken by j. */
  lemma {:induction false} AgreeTaken(done: map<string, Entry>, k: string, e: Entry, j: string)
    requires k !in done && j in done && Normalized(j) == Normalized(k)
    ensures Agree(done[k := e], done[k := e]) <==> Agree(done, done) && done[j].code == e.code
  {
    hide Normalized;
    var more := done[k := e];
    if Agree(more, more) {
      assert more[j] == done[j] && more[k] == e;
      forall x, y | x in done && y in done && Normalized(x) == Normalized(y)
        ensures done[x].code == done[y].code
      {
        assert more[x] == done[x] && more[y] == done[y];
      }
    }
    if Agree(done, done) && done[j].code == e.code {
      forall x, y | x in more && y in more && Normalized(x) == Normalized(y)
        ensures more[x].code == more[y].code
      {
        assert x in done ==> more[x] == done[x] && (y == k ==> done[x].code == done[j].code);
        assert y in done ==> more[y] == done[y] && (x == k ==> done[y].code == done[j].code);
      }
    }
  }

  lemma {:induction false} AgreeFresh(done: map<string, Entry>, k: string, e: Entry)
    requires k !in done && forall j :: j in done ==> Normalized(j) != Normalized(k)
    ensures Agree(done[k := e], done[k := e]) <==> Agree(done, done)
  {
    hide Normalized;
    var more := done[k := e];
    assert forall x :: x in done ==> more[x] == done[x];
    assert forall x :: x in more ==> x == k || x in done;
  }

  /** The closure add of buildNormalized: walks src in an arbitrary order. */
  method AddNormalized(src: map<string, Entry>, conflicts0: seq<Conflict>)
    returns (dst: map<string, Entry>, conflicts: seq<Conflict>)
    ensures Indexes(src, dst)
    ensures conflicts == [] <==> conflicts0 == [] && Agree(src, src)
  {
    hide Normalized;
    dst, conflicts := map[], conflicts0;
    var todo := src.Keys;
    ghost var done: map<string, Entry> := map[];
    while todo != {}
      invariant todo <= src.Keys
      invariant done == src - todo
      invariant Indexes(done, dst)
      invariant conflicts == [] <==> conflicts0 == [] && Agree(done, done)
      decreases todo
    {
      var k :| k in todo;
      var n := Normalized(k);
      ghost var more := done[k := src[k]];
      assert forall j :: j in done ==> more[j] == done[j];
      if n in dst {
        ghost var j :| j in done && Normalized(j) == n && dst[n] == done[j];
        if dst[n].code != src[k].code {
          conflicts := conflicts + [Conflict(n, dst[n].code, src[k].code)];
        }
        AgreeTaken(done, k, src[k], j);
      } else {
        AgreeFresh(done, k, src[k]);
        dst := dst[n := src[k]];
        assert more[k] == src[k];
      }
      todo, done := todo - {k}, more;
    }
  }

  method BuildNormalized(t: Tables)
    returns (m: map<string, Entry>, c: map<string, Entry>, conflicts: seq<Conflict>)
    ensures Indexes(t.management, m) && Indexes(t.capability, c)
    ensures conflicts == [] <==> NoConflicts(t)
  {
    m, conflicts := AddNormalized(t.management, []);
    c, conflicts := AddNormalized(t.capability, conflicts);
    var todo := m.Keys;
    ghost var inside := conflicts == [];
    while todo != {}
      invariant todo <= m.Keys
      invariant conflicts == [] <==> inside && forall n :: n in m && n !in todo && n in c ==> m[n].code == c[n].code
      decreases todo
    {
      var n :| n in todo;
      if n in c && c[n].code != m[n].code {
        conflicts := conflicts + [Conflict(n, m[n].code, c[n].code)];
      }
      todo := todo - {n};
    }
    if inside {
      CrossTable(t, m, c);
    }
  }

  lemma {:induction false} CrossTable(t: Tables, m: map<string, Entry>, c: map<string, Entry>)
    requires Indexes(t.management, m) && Indexes(t.capability, c)
    requires Agree(t.management, t.management) && Agree(t.capability, t.capability)
    ensures Agree(t.management, t.capability) <==> forall n :: n in m && n in c ==> m[n].code == c[n].code
  {
  }

  // ---------- Resolving ----------

  datatype ResolveError =
    | ConflictError(key: string, managementCode: string, capabilityCode: string)
    | MissingError(key: string)

  datatype Source = Management | Capability

  datatype Expectation = Expectation(verb: string, path: string, source: Source, entry: Entry)

  /** The tables together with an index built from them. */
  datatype Resolver = Resolver(tables: Tables, management: map<string, Entry>, capability: map<string, Entry>)
  {
    ghost predicate Valid() {
      && Indexes(tables.management, management)
      && Indexes(tables.capability, capability)
    }
  }

  function Find(m: map<string, Entry>, k: string): Option<Entry> {
    if k in m then Some(m[k]) else None
  }

  /** An exact key in either table decides; only when neither has it are normalised keys looked up. */
  function Hits(r: Resolver, verb: string, path: string): (Option<Entry>, Option<Entry>) {
    var k, n := Key(verb, path), NormalKey(verb, path);
    if k in r.tables.management || k in r.tables.capability
    then (Find(r.tables.management, k), Find(r.tables.capability, k))
    else (Find(r.management, n), Find(r.capability, n))
  }

  function Resolve(r: Resolver, verb: string, path: string): Result<Expectation, ResolveError> {
    var (m, c) := Hits(r, verb, path);
    if m.Some? && c.Some? && m.value.code != c.value.code then
      Err(ConflictError(Key(verb, path), m.value.code, c.value.code))
    else if m.Some? then Ok(Expectation(Method(verb), path, Management, m.value))
    else if c.Some? then Ok(Expectation(Method(verb), path, Capability, c.value))
    else Err(MissingError(Key(verb, path)))
  }

  predicate IsExempt(t: Tables, exemptIndex: set<string>, verb: string, path: string) {
    Key(verb, path) in t.exempt || NormalKey(verb, path) in exemptIndex
  }

  /** Some entry of the tables with this normalised key carries the code. */
  ghost predicate Assigns(t: Tables, n: string, code: string) {
    || (exists k :: k in t.management && Normalized(k) == n && t.management[k].code == code)
    || (exists k :: k in t.capability && Normalized(k) == n && t.capability[k].code == code)
  }

  /** When no conflict is recorded, a route resolves to a code exactly when the tables assign the
      code to its normalised key, and it never conflicts: the map orders behind the index, and the
      spelling of parameter names, play no part. */
  lemma {:induction false} ResolveIsAssigned(r: Resolver, verb: string, path: string, code: string)
    requires r.Valid() && NoConflicts(r.tables) && BraceFree(Method(verb))
    ensures Assigns(r.tables, NormalKey(verb, path), code) <==>
      Resolve(r, verb, path).Ok? && Resolve(r, verb, path).value.entry.code == code
    ensures Resolve(r, verb, path).Err? ==> Resolve(r, verb, path).error.MissingError?
  {
    var k, n := Key(verb, path), NormalKey(verb, path);
    NormalKeyIsNormalized(verb, path);
    hide Key, NormalKey, Normalized;
    var (m, c) := Hits(r, verb, path);
    assert m.Some? ==> exists j :: j in r.tables.management && Normalized(j) == n && r.tables.management[j] == m.value;
    assert c.Some? ==> exists j :: j in r.tables.capability && Normalized(j) == n && r.tables.capability[j] == c.value;
    assert m.None? && c.None? ==> n !in r.management && n !in r.capability;
  }

  /** So two paths with one normal form resolve alike, under any two indexes of the same tables. */
  lemma {:induction false} ResolveByNormalForm(r: Resolver, q: Resolver, verb: string, one: string, two: string)
    requires r.Valid() && q.Valid() && q.tables == r.tables && NoConflicts(r.tables) && BraceFree(Method(verb))
    requires Normalized(Trim(one)) == Normalized(Trim(two))
    ensures Resolve(r, verb, one).Ok? <==> Resolve(q, verb, two).Ok?
    ensures Resolve(r, verb, one).Ok? ==>
      Resolve(r, verb, one).value.entry.code == Resolve(q, verb, two).value.entry.code
  {
    assert NormalKey(verb, one) == NormalKey(verb, two);
    hide Key, NormalKey, Normalized;
    if Resolve(r, verb, one).Ok? {
      var code := Resolve(r, verb, one).value.entry.code;
      ResolveIsAssigned(r, verb, one, code);
      ResolveIsAssigned(q, verb, two, code);
    }
    if Resolve(q, verb, two).Ok? {
      var code := Resolve(q, verb, two).value.entry.code;
      ResolveIsAssigned(r, verb, one, code);
      ResolveIsAssigned(q, verb, two, code);
    }
  }

  /** Two spellings of one route with different entries, walked so that the first is indexed. */
  function TwoSpellings(a: string, b: string, ea: Entry, eb: Entry): Resolver {
    Resolver(Tables(map[a := ea, b := eb], map[], map[]), map[Normalized(a) := ea], map[])
  }

  /** A path with one parameter. */
  function OneNamed(name: string): string {
    "/" + ("{" + (name + "}"))
  }

  lemma {:induction false} NamedKeys(name: string)
    requires |name| == 1 && name[0] != '{' && name[0] != '}'
    ensures Trim(OneNamed(name)) == OneNamed(name) && Normalized(OneNamed(name)) == "/{}"
    ensures BraceFree(Method("G")) && Key("G", OneNamed(name)) == "G " + OneNamed(name)
    ensures Normalized("G " + OneNamed(name)) == "G /{}"
  {
    OneParameter("/", name);
    OneParameter("G /", name);
    assert Method("G") == "G";
    assert "G " + OneNamed(name) == "G /" + ("{" + (name + "}"));
    hide Normalized;
  }

  lemma {:induction false} NamedAt(name: string)
    requires |name| == 1
    ensures |OneNamed(name)| == 4 && ("G " + OneNamed(name))[4] == name[0]
  {
  }

  lemma {:induction false} TwoSpellingsValid(a: string, b: string, ea: Entry, eb: Entry)
    requires a != b && Normalized(a) == Normalized(b) && ea.code == eb.code
    ensures TwoSpellings(a, b, ea, eb).Valid() && NoConflicts(TwoSpellings(a, b, ea, eb).tables)
    ensures TwoSpellings(a, b, ea, eb).tables == Tables(map[a := ea, b := eb], map[], map[])
  {
    hide Normalized;
    var m := map[a := ea, b := eb];
    assert m[a] == ea && m[b] == eb && m.Keys == {a, b};
    assert Indexes(m, map[Normalized(a) := ea]);
  }

  /** The scope is not decided by the normal form, even without conflicts: an entry hit exactly and
      the entry the index happens to hold may agree on the code and differ in scope. */
  lemma {:induction false} ScopeDependsOnSpelling()
    ensures exists r: Resolver, verb, one, two ::
      && r.Valid() && NoConflicts(r.tables) && BraceFree(Method(verb))
      && Normalized(Trim(one)) == Normalized(Trim(two))
      && Resolve(r, verb, one).Ok? && Resolve(r, verb, two).Ok?
      && Resolve(r, verb, one).value.entry.scopeKind != Resolve(r, verb, two).value.entry.scopeKind
  {
    hide *;
    var one, two := OneNamed("a"), OneNamed("b");
    var a, b := "G " + one, "G " + two;
    NamedKeys("a");
    NamedKeys("b");
    assert a[4] == 'a' && b[4] == 'b' by {
      NamedAt("a");
      NamedAt("b");
    }
    var ea, eb := Entry("", "c", "", "platform"), Entry("", "c", "", "tenant");
    TwoSpellingsValid(a, b, ea, eb);
    var r := TwoSpellings(a, b, ea, eb);
    assert r.tables.management[a] == ea && r.tables.management[b] == eb;
    ExactHit(r, "G", one);
    ExactHit(r, "G", two);
  }

  lemma {:induction false} ExactHit(r: Resolver, verb: string, path: string)
    requires Key(verb, path) in r.tables.management && r.tables.capability == map[]
    ensures Resolve(r, verb, path).Ok? && Resolve(r, verb, path).value.entry == r.tables.management[Key(verb, path)]
  {
  }

  lemma {:induction false} OneParameter(before: string, name: string)
    requires BraceFree(before) && BraceFree(name)
    ensures Normalized(before + ("{" + (name + "}"))) == before + "{}"
  {
    var s := "{" + (name + "}");
    assert (before + s)[|before|] == '{';
    PlainPrefix(before, s);
    assert s[1..] == name + "}";
    SkipName(name, "}", 1);
    assert NormalizedFrom("}", 1) == "" by { assert "}"[1..] == ""; }
  }
}
