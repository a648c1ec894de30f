/** The single-record cache: GetOrLoad (pkg/localdeps/go-crud/cache/support.go) and the cached
    operations of pkg/localdeps/go-crud/entgo/repository_cache.go. */
module RecordCache {
  import opened Basics
  import opened CursorCodec
  import opened CacheKeys

  datatype CacheError = KeyTooLong | CacheFault | LoadError(message: string)

  /** Options after the option functions have been applied; time to live is left to the Expire step. */
  datatype Options = Options(noCache: bool, cacheEmpty: bool)

  const MAX_KEY_LEN := 512

  /** A cached value; None stands for a cached "no such record". */
  type Store<D> = map<string, Option<D>>

  type Loaded<D> = Result<Option<D>, string>

  function Lift<D>(r: Loaded<D>): Result<Option<D>, CacheError> {
    match r
    case Ok(v) => Ok(v)
    case Err(e) => Err(LoadError(e))
  }

  /** GetOrLoad as a function of the cache: the new cache and the answer. */
  function Load<D>(store: Store<D>, key: string, loader: Option<() -> Loaded<D>>, opts: Options, readFault: bool,
                   writeFault: bool): (Store<D>, Result<Option<D>, CacheError>)
  {
    if |key| > MAX_KEY_LEN then (store, Err(KeyTooLong))
    else if opts.noCache && loader.Some? then (store, Lift(loader.value()))
    else if readFault then (store, Err(CacheFault))
    else if key in store then (store, Ok(store[key]))
    else
      var loaded := if loader.None? then Ok(None) else loader.value();
      if loaded.Err? || writeFault || (loaded.value.None? && !opts.cacheEmpty) then (store, Lift(loaded))
      else (store[key := loaded.value], Lift(loaded))
  }

  class CacheSupport<D> {
    var store: Store<D>

    constructor ()
      ensures store == map[]
    {
      store := map[];
    }

    /** A read fault is an error other than a miss; a write fault is ignored by the code. Only a miss loads,
        and what it loads stays under its key: a record always, no record when empty answers are cached. A
        hit is answered from the store, under any loader. */
    method GetOrLoad(key: string, loader: Option<() -> Loaded<D>>, opts: Options, readFault: bool, writeFault: bool)
      returns (r: Result<Option<D>, CacheError>)
      modifies this
      ensures (store, r) == Load(old(store), key, loader, opts, readFault, writeFault)
      ensures |key| > 512 ==> r == Err(KeyTooLong) && store == old(store)
      ensures |key| <= 512 && opts.noCache && loader.Some? ==> r == Lift(loader.value()) && store == old(store)
      ensures |key| <= 512 && !(opts.noCache && loader.Some?) && readFault ==>
        r == Err(CacheFault) && store == old(store)
      ensures |key| <= 512 && !(opts.noCache && loader.Some?) && !readFault && key in old(store) ==>
        r == Ok(old(store)[key]) && store == old(store)
      ensures |key| <= 512 && !(opts.noCache && loader.Some?) && !readFault && key !in old(store) ==>
        match if loader.Some? then loader.value() else Ok(None)
        case Err(e) => r == Err(LoadError(e)) && store == old(store)
        case Ok(v) =>
          && r == Ok(v)
          && (forall k :: k != key ==> (k in store <==> k in old(store)) && (k in store ==> store[k] == old(store)[k]))
          && (key in store <==> !writeFault && (v.Some? || opts.cacheEmpty)) && (key in store ==> store[key] == v)
    {
      if |key| > MAX_KEY_LEN {
        return Err(KeyTooLong);
      }
      if opts.noCache && loader.Some? {
        var direct := loader.value();
        return Lift(direct);
      }
      if readFault {
        return Err(CacheFault);
      }
      if key in store {
        return Ok(store[key]);
      }
      var data: Option<D> := None;
      if loader.Some? {
        var loaded := loader.value();
        if loaded.Err? {
          return Err(LoadError(loaded.error));
        }
        data := loaded.value;
      }
      if data.None? {
        if opts.cacheEmpty && !writeFault {
          store := store[key := None];
        }
        return Ok(None);
      }
      if !writeFault {
        store := store[key := data];
      }
      return Ok(data);
    }

    /** The keys that a scan with the pattern finds. */
    method Scan(pattern: string) returns (keys: set<string>)
      ensures keys == set k | k in store && Matches(pattern, k)
    {
      keys := set k | k in store && Matches(pattern, k);
    }

    /** A deletion that fails removes nothing; the code does not look at the error. */
    method Del(keys: set<string>, fault: bool)
      modifies this
      ensures store == if fault then old(store) else old(store) - keys
    {
      if !fault {
        store := store - keys;
      }
    }
  }

  /** What goes wrong while a record is invalidated: the scan for its keys, the deletion. */
  datatype Faults = Faults(scan: bool, del: bool)

  const NO_FAULT := Faults(false, false)

  /** The repository: the direct query (a function of database, tenant, user, mask and id), the key
      prefix and hash, whether a Redis client is configured, and the masks that callers ask with. */
  datatype Repository<!Db(!new), !D(!new)> = Repository(
    get: (Db, nat, nat, ViewMask, int) -> Loaded<D>,
    prefix: string,
    hash: Hash,
    hasClient: bool,
    masks: set<ViewMask>)
  {
    function KeyFor(tenant: nat, user: nat, mask: ViewMask, id: int): string {
      CacheKey(prefix, tenant, user, Fingerprint(hash, mask), IdText(id))
    }

    /** Masks in use with one fingerprint ask for the same fields. */
    ghost predicate MaskSound() {
      forall m, n :: m in masks && n in masks && Fingerprint(hash, m) == Fingerprint(hash, n) ==> SameAnswers(m, n)
    }

    ghost predicate SameAnswers(m: ViewMask, n: ViewMask) {
      forall db, t, u, id :: get(db, t, u, m, id) == get(db, t, u, n, id)
    }

    /** The answer depends on which paths a mask lists, not on their order. */
    ghost predicate SelectsByPaths() {
      forall m, n :: m in masks && n in masks && SortedPaths(m) == SortedPaths(n) ==> SameAnswers(m, n)
    }

    /** Every cached copy is what the direct query answers now. */
    ghost predicate Fresh(db: Db, store: Store<D>) {
      forall t, u, m, id :: m in masks && KeyFor(t, u, m, id) in store ==>
        get(db, t, u, m, id) == Ok(store[KeyFor(t, u, m, id)])
    }

    /** A write to one record changes no other record's answers. */
    ghost predicate WritesOnly(before: Db, after: Db, id: int) {
      forall t, u, m, j :: m in masks && j != id ==> get(after, t, u, m, j) == get(before, t, u, m, j)
    }

    /** A fresh cache, with keys that GetOrLoad stores. */
    ghost predicate CanHold(db: Db, store: Store<D>) {
      Fresh(db, store) && forall k :: k in store ==> |k| <= MAX_KEY_LEN
    }

    /** The write changes an answer that can be in the cache. */
    ghost predicate Changes(before: Db, after: Db, t: nat, u: nat, m: ViewMask, id: int) {
      && m in masks && |KeyFor(t, u, m, id)| <= MAX_KEY_LEN
      && get(before, t, u, m, id).Ok? && get(after, t, u, m, id) != get(before, t, u, m, id)
    }

    /** invalidateCache: with a client, all copies of the record, without one a single copy; nothing when
        the scan or the deletion fails. */
    function Invalidated(store: Store<D>, tenant: nat, user: nat, id: int, faults: Faults): Store<D> {
      if faults.del || (hasClient && faults.scan) then store
      else if hasClient then map k | k in store && !Matches(Pattern(prefix, IdText(id)), k) :: store[k]
      else store - {KeyFor(tenant, user, None, id)}
    }

    method GetByIDWithCache(cache: CacheSupport<D>, db: Db, tenant: nat, user: nat, mask: ViewMask, id: int,
                            opts: Options, readFault: bool, writeFault: bool)
      returns (r: Result<Option<D>, CacheError>)
      modifies cache
      ensures (cache.store, r)
           == Load(old(cache.store), KeyFor(tenant, user, mask, id), Some(() => get(db, tenant, user, mask, id)),
                   opts, readFault, writeFault)
    {
      var loader: () -> Loaded<D> := () => get(db, tenant, user, mask, id);
      r := cache.GetOrLoad(KeyFor(tenant, user, mask, id), Some(loader), opts, readFault, writeFault);
    }

    method InvalidateCache(cache: CacheSupport<D>, tenant: nat, user: nat, id: int, faults: Faults)
      modifies cache
      ensures cache.store == Invalidated(old(cache.store), tenant, user, id, faults)
    {
      if hasClient {
        var pattern := Pattern(prefix, IdText(id));
        var keys := cache.Scan(pattern);
        assert cache.store - keys == map k | k in cache.store && !Matches(pattern, k) :: cache.store[k];
        if !faults.scan && keys != {} {
          cache.Del(keys, faults.del);
        }
      } else {
        cache.Del({KeyFor(tenant, user, None, id)}, faults.del);
      }
    }

    /** The cache after an update has answered. */
    function AfterUpdate(store: Store<D>, tenant: nat, user: nat, updated: Result<Option<D>, string>,
                         exposedId: Option<int>, faults: Faults): Store<D>
    {
      if updated.Ok? && updated.value.Some? && exposedId.Some?
      then Invalidated(store, tenant, user, exposedId.value, faults)
      else store
    }

    /** The cache after a deletion has answered with the number of rows it hit. */
    function AfterDelete(store: Store<D>, tenant: nat, user: nat, deleted: Result<nat, string>, id: int,
                         faults: Faults): Store<D>
    {
      if deleted.Ok? && deleted.value > 0 then Invalidated(store, tenant, user, id, faults) else store
    }

    /** UpdateWithCache after UpdateOne has answered; exposedId is what extractIDFromDTO finds: None
        when the DTO has no GetId of type int64. */
    method UpdateWithCache(cache: CacheSupport<D>, tenant: nat, user: nat, updated: Result<Option<D>, string>,
                           exposedId: Option<int>, faults: Faults)
      returns (r: Result<Option<D>, string>)
      modifies cache
      ensures r == updated
      ensures cache.store == AfterUpdate(old(cache.store), tenant, user, updated, exposedId, faults)
    {
      if updated.Err? {
        return updated;
      }
      if updated.value.Some? && exposedId.Some? {
        InvalidateCache(cache, tenant, user, exposedId.value, faults);
      }
      return updated;
    }

    method DeleteWithCache(cache: CacheSupport<D>, tenant: nat, user: nat, deleted: Result<nat, string>, id: int,
                           faults: Faults)
      returns (r: Result<nat, string>)
      modifies cache
      ensures r == deleted
      ensures cache.store == AfterDelete(old(cache.store), tenant, user, deleted, id, faults)
    {
      if deleted.Err? {
        return deleted;
      }
      if deleted.value > 0 {
        InvalidateCache(cache, tenant, user, id, faults);
      }
      return deleted;
    }
  }

  // ---------- Freshness ----------

  /** Where the hash does not collide on the masks in use and no path has a bar in it, all that is asked
      of them is that the order of the paths does not matter. */
  lemma {:induction false} MaskSoundIff<Db(!new), D(!new)>(r: Repository<Db, D>)
    requires HashFits(r.hash) && forall m :: m in r.masks ==> NoBars(m)
    requires forall m, n :: m in r.masks && n in r.masks ==> NoCollision(r.hash, m, n)
    ensures r.MaskSound() <==> r.SelectsByPaths()
  {
    hide HashFits, NoBars, NoCollision, Fingerprint, SortedPaths, Repository.SameAnswers;
    forall m, n | m in r.masks && n in r.masks
      ensures Fingerprint(r.hash, m) == Fingerprint(r.hash, n) <==> SortedPaths(m) == SortedPaths(n)
    {
      FingerprintInjective(r.hash, m, n);
    }
  }

  lemma {:induction false} SameKey<Db(!new), D(!new)>(r: Repository<Db, D>, t1: nat, u1: nat, m1: ViewMask, i1: int,
                                                     t2: nat, u2: nat, m2: ViewMask, i2: int)
    requires r.KeyFor(t1, u1, m1, i1) == r.KeyFor(t2, u2, m2, i2)
    ensures t1 == t2 && u1 == u2 && i1 == i2 && Fingerprint(r.hash, m1) == Fingerprint(r.hash, m2)
  {
    FingerprintHasNoColon(r.hash, m1);
    FingerprintHasNoColon(r.hash, m2);
    hide CacheKey, Fingerprint;
    KeyInjective(r.prefix, t1, u1, Fingerprint(r.hash, m1), IdText(i1), t2, u2, Fingerprint(r.hash, m2), IdText(i2));
    SameIdText(i1, i2);
  }

  /** A read through a fresh cache answers what the direct query answers, or refuses; whatever it
      stores is fresh, and an error is never stored. */
  lemma {:induction false} ReadIsDirect<Db(!new), D(!new)>(
    r: Repository<Db, D>, db: Db, store: Store<D>, t: nat, u: nat, m: ViewMask, id: int, opts: Options,
    readFault: bool, writeFault: bool)
    requires m in r.masks && r.MaskSound() && r.Fresh(db, store)
    ensures var (after, answer) :=
        Load(store, r.KeyFor(t, u, m, id), Some(() => r.get(db, t, u, m, id)), opts, readFault, writeFault);
      && r.Fresh(db, after)
      && (answer == Lift(r.get(db, t, u, m, id))
          || (answer == Err(KeyTooLong) && |r.KeyFor(t, u, m, id)| > MAX_KEY_LEN)
          || (answer == Err(CacheFault) && readFault))
      && (r.get(db, t, u, m, id).Err? ==> after == store)
  {
    var key := r.KeyFor(t, u, m, id);
    var (after, answer) := Load(store, key, Some(() => r.get(db, t, u, m, id)), opts, readFault, writeFault);
    hide CacheKey, Fingerprint;
    forall t', u', m', id' | m' in r.masks && r.KeyFor(t', u', m', id') in after
      ensures r.get(db, t', u', m', id') == Ok(after[r.KeyFor(t', u', m', id')])
    {
      if r.KeyFor(t', u', m', id') == key {
        SameKey(r, t, u, m, id, t', u', m', id');
      }
    }
  }

  /** After a write to one record and the removal of its copies by pattern, the cache is fresh. */
  lemma {:induction false} WriteStaysFresh<Db(!new), D(!new)>(
    r: Repository<Db, D>, before: Db, after: Db, store: Store<D>, t: nat, u: nat, id: int)
    requires r.hasClient && SafePrefix(r.prefix)
    requires r.Fresh(before, store) && r.WritesOnly(before, after, id)
    ensures r.Fresh(after, r.Invalidated(store, t, u, id, NO_FAULT))
  {
    var left := r.Invalidated(store, t, u, id, NO_FAULT);
    forall t', u', m', id' | m' in r.masks && r.KeyFor(t', u', m', id') in left
      ensures r.get(after, t', u', m', id') == Ok(left[r.KeyFor(t', u', m', id')])
    {
      PatternIsExact(r.prefix, id, t', u', Fingerprint(r.hash, m'), id');
    }
  }

  /** No more than the record's copies is removed. */
  lemma {:induction false} OtherCopiesStay<Db(!new), D(!new)>(
    r: Repository<Db, D>, store: Store<D>, t: nat, u: nat, id: int, t': nat, u': nat, m': ViewMask, id': int)
    requires r.hasClient && SafePrefix(r.prefix) && r.KeyFor(t', u', m', id') in store
    ensures r.KeyFor(t', u', m', id') in r.Invalidated(store, t, u, id, NO_FAULT) <==> id' != id
  {
    PatternIsExact(r.prefix, id, t', u', Fingerprint(r.hash, m'), id');
  }

  datatype State<Db, D> = State(db: Db, store: Store<D>)

  /** Steps that do not overlap: a cached read, a write that removes the record's copies, an expiry. */
  datatype Step<Db, D> =
    | Read(t: nat, u: nat, m: ViewMask, id: int, opts: Options, readFault: bool, writeFault: bool)
    | Write(after: Db, wt: nat, wu: nat, wid: int)
    | Expire(keys: set<string>)

  ghost predicate Next<Db(!new), D(!new)>(r: Repository<Db, D>, s: State<Db, D>, step: Step<Db, D>, v: State<Db, D>) {
    match step
    case Read(t, u, m, id, opts, rf, wf) =>
      m in r.masks &&
      v == State(s.db, Load(s.store, r.KeyFor(t, u, m, id), Some(() => r.get(s.db, t, u, m, id)), opts, rf, wf).0)
    case Write(after, t, u, id) =>
      r.WritesOnly(s.db, after, id) && v == State(after, r.Invalidated(s.store, t, u, id, NO_FAULT))
    case Expire(keys) => v == s.(store := s.store - keys)
  }

  lemma {:induction false} StepStaysFresh<Db(!new), D(!new)>(r: Repository<Db, D>, s: State<Db, D>, step: Step<Db, D>,
                                                            v: State<Db, D>)
    requires r.MaskSound() && r.hasClient && SafePrefix(r.prefix)
    requires r.Fresh(s.db, s.store) && Next(r, s, step, v)
    ensures r.Fresh(v.db, v.store)
  {
    hide Repository.MaskSound, Repository.KeyFor, Repository.Invalidated, Load, SafePrefix;
    match step
    case Read(t, u, m, id, opts, rf, wf) =>
      ReadIsDirect(r, s.db, s.store, t, u, m, id, opts, rf, wf);
    case Write(after, t, u, id) =>
      WriteStaysFresh(r, s.db, after, s.store, t, u, id);
    case Expire(keys) =>
  }

  ghost predicate IsRun<Db(!new), D(!new)>(r: Repository<Db, D>, steps: seq<Step<Db, D>>, states: seq<State<Db, D>>) {
    && |states| == |steps| + 1 && states[0].store == map[]
    && forall i :: 0 <= i < |steps| ==> Next(r, states[i], steps[i], states[i + 1])
  }

  /** In every run from an empty cache all copies are fresh. */
  lemma {:induction false} RunStaysFresh<Db(!new), D(!new)>(r: Repository<Db, D>, steps: seq<Step<Db, D>>,
                                                           states: seq<State<Db, D>>, n: nat)
    requires r.MaskSound() && r.hasClient && SafePrefix(r.prefix)
    requires IsRun(r, steps, states) && n <= |steps|
    ensures r.Fresh(states[n].db, states[n].store)
  {
    hide Next, Repository.MaskSound, Repository.Fresh, SafePrefix;
    if n == 0 {
      EmptyIsFresh(r, states[0]);
    } else {
      RunStaysFresh(r, steps, states, n - 1);
      StepStaysFresh(r, states[n - 1], steps[n - 1], states[n]);
    }
  }

  lemma {:induction false} EmptyIsFresh<Db(!new), D(!new)>(r: Repository<Db, D>, s: State<Db, D>)
    requires s.store == map[]
    ensures r.Fresh(s.db, s.store)
  {
  }

  /** So whatever happened before, a cached read answers what the direct query would answer now, or
      refuses a key that is too long or a cache that cannot be read. */
  lemma {:induction false} ReadInRunIsDirect<Db(!new), D(!new)>(r: Repository<Db, D>, steps: seq<Step<Db, D>>,
                                                               states: seq<State<Db, D>>, n: nat)
    requires r.MaskSound() && r.hasClient && SafePrefix(r.prefix)
    requires IsRun(r, steps, states) && n < |steps| && steps[n].Read?
    ensures var (s, q) := (states[n], steps[n]);
      var answer := Load(s.store, r.KeyFor(q.t, q.u, q.m, q.id), Some(() => r.get(s.db, q.t, q.u, q.m, q.id)), q.opts,
                         q.readFault, q.writeFault).1;
      || answer == Lift(r.get(s.db, q.t, q.u, q.m, q.id))
      || (answer == Err(KeyTooLong) && |r.KeyFor(q.t, q.u, q.m, q.id)| > MAX_KEY_LEN)
      || (answer == Err(CacheFault) && q.readFault)
  {
    assert Next(r, states[n], steps[n], states[n + 1]) && steps[n].m in r.masks;
    hide Next, Repository.MaskSound, Repository.Fresh, Repository.KeyFor, SafePrefix, Load;
    RunStaysFresh(r, steps, states, n);
    var s, q := states[n], steps[n];
    ReadIsDirect(r, s.db, s.store, q.t, q.u, q.m, q.id, q.opts, q.readFault, q.writeFault);
  }

  // ---------- What is stored is used ----------

  /** After a miss that loaded v and could be stored, the next call for the key answers v, under any
      loader, and loads nothing. */
  lemma {:induction false} SecondReadHits<D>(store: Store<D>, key: string, v: Option<D>, opts: Options,
                                             loader: Option<() -> Loaded<D>>, later: Options, writeFault: bool)
    requires |key| <= 512 && key !in store && !opts.noCache && (v.Some? || opts.cacheEmpty)
    requires later.noCache ==> loader == None
    ensures var after := Load(store, key, Some(() => Ok(v)), opts, false, false).0;
      Load(after, key, loader, later, false, writeFault) == (after, Ok(v))
  {
  }

  /** The step may drop the copy under the key of record id: it writes that record, or the copy expires. */
  ghost predicate Drops<Db(!new), D(!new)>(step: Step<Db, D>, key: string, id: int) {
    match step
    case Read(_, _, _, _, _, _, _) => false
    case Write(_, _, _, wid) => wid == id
    case Expire(keys) => key in keys
  }

  lemma {:induction false} CopyStays<Db(!new), D(!new)>(r: Repository<Db, D>, s: State<Db, D>, step: Step<Db, D>,
                                                       v: State<Db, D>, t: nat, u: nat, m: ViewMask, id: int)
    requires r.hasClient && SafePrefix(r.prefix) && Next(r, s, step, v)
    requires var key := r.KeyFor(t, u, m, id); key in s.store && !Drops(step, key, id)
    ensures var key := r.KeyFor(t, u, m, id); key in v.store && v.store[key] == s.store[key]
  {
    if step.Write? {
      OtherCopiesStay(r, s.store, step.wt, step.wu, step.wid, t, u, m, id);
    }
    hide Repository.KeyFor, Matches, Pattern;
  }

  lemma {:induction false} CopyStaysInRun<Db(!new), D(!new)>(r: Repository<Db, D>, steps: seq<Step<Db, D>>,
                                                            states: seq<State<Db, D>>, n: nat, m: nat, t: nat, u: nat,
                                                            mask: ViewMask, id: int)
    requires r.hasClient && SafePrefix(r.prefix) && IsRun(r, steps, states) && n <= m <= |steps|
    requires r.KeyFor(t, u, mask, id) in states[n].store
    requires forall i :: n <= i < m ==> !Drops(steps[i], r.KeyFor(t, u, mask, id), id)
    ensures var key := r.KeyFor(t, u, mask, id); key in states[m].store && states[m].store[key] == states[n].store[key]
    decreases m
  {
    hide Next, Drops, Repository.KeyFor, SafePrefix;
    if n < m {
      CopyStaysInRun(r, steps, states, n, m - 1, t, u, mask, id);
      CopyStays(r, states[m - 1], steps[m - 1], states[m], t, u, mask, id);
    }
  }

  /** A read that could use and fill the cache. */
  ghost predicate UsesCache<Db(!new), D(!new)>(r: Repository<Db, D>, step: Step<Db, D>) {
    step.Read? && !step.opts.noCache && !step.readFault && |r.KeyFor(step.t, step.u, step.m, step.id)| <= 512
  }

  /** The first read found a record, or nothing and cached that; no write to the record and no expiry of the
      copy comes between: then a later read under the same key answers the same from the store, and the
      store stays as it is. */
  lemma {:induction false} LaterReadHits<Db(!new), D(!new)>(r: Repository<Db, D>, steps: seq<Step<Db, D>>,
                                                           states: seq<State<Db, D>>, n: nat, m: nat)
    requires r.hasClient && SafePrefix(r.prefix) && IsRun(r, steps, states) && n < m < |steps|
    requires UsesCache(r, steps[n]) && UsesCache(r, steps[m]) && !steps[n].writeFault
    requires var q := steps[n]; r.KeyFor(q.t, q.u, q.m, q.id) !in states[n].store ==>
      match r.get(states[n].db, q.t, q.u, q.m, q.id)
      case Ok(v) => v.Some? || q.opts.cacheEmpty
      case Err(_) => false
    requires var q, p := steps[n], steps[m]; r.KeyFor(p.t, p.u, p.m, p.id) == r.KeyFor(q.t, q.u, q.m, q.id)
    requires forall i :: n < i < m ==>
      !Drops(steps[i], r.KeyFor(steps[n].t, steps[n].u, steps[n].m, steps[n].id), steps[n].id)
    ensures var p, s := steps[m], states[m];
      var key := r.KeyFor(p.t, p.u, p.m, p.id);
      && key in s.store && states[m + 1].store == s.store
      && (key !in states[n].store ==> Ok(s.store[key]) == r.get(states[n].db, p.t, p.u, steps[n].m, p.id))
      && Load(s.store, key, Some(() => r.get(s.db, p.t, p.u, p.m, p.id)), p.opts, p.readFault, p.writeFault).1
           == Ok(s.store[key])
  {
    var q, p := steps[n], steps[m];
    SameKey(r, q.t, q.u, q.m, q.id, p.t, p.u, p.m, p.id);
    assert Next(r, states[n], q, states[n + 1]) && Next(r, states[m], p, states[m + 1]);
    hide Repository.KeyFor, SafePrefix, Drops;
    CopyStaysInRun(r, steps, states, n + 1, m, q.t, q.u, q.m, q.id);
  }

  // ---------- When a write leaves stale copies ----------

  function Without<D>(store: Store<D>, gone: string -> bool): Store<D> {
    map k | k in store && !gone(k) :: store[k]
  }

  /** Whatever fresh copies there are, removing some keys after a write leaves a fresh cache exactly
      when the keys of all changed answers are among them. */
  lemma {:induction false} RemovalIff<Db(!new), D(!new)>(r: Repository<Db, D>, before: Db, after: Db, id: int,
                                                        gone: string -> bool)
    requires r.MaskSound() && r.WritesOnly(before, after, id)
    ensures (forall store :: r.CanHold(before, store) ==> r.Fresh(after, Without(store, gone)))
       <==> (forall t, u, m :: r.Changes(before, after, t, u, m, id) ==> gone(r.KeyFor(t, u, m, id)))
  {
    hide Repository.MaskSound, Repository.KeyFor;
    if forall store :: r.CanHold(before, store) ==> r.Fresh(after, Without(store, gone)) {
      forall t, u, m | r.Changes(before, after, t, u, m, id) ensures gone(r.KeyFor(t, u, m, id)) {
        var store := OneCopy(r, before, t, u, m, id);
        var key := r.KeyFor(t, u, m, id);
        assert r.Fresh(after, Without(store, gone));
        KeptCopy(store, gone, key);
        FreshCopy(r, after, Without(store, gone), t, u, m, id);
      }
    }
    if forall t, u, m :: r.Changes(before, after, t, u, m, id) ==> gone(r.KeyFor(t, u, m, id)) {
      forall store | r.CanHold(before, store) ensures r.Fresh(after, Without(store, gone)) {
        KeptFresh(r, before, after, id, gone, store);
      }
    }
  }

  lemma {:induction false} KeptCopy<D>(store: Store<D>, gone: string -> bool, key: string)
    requires key in store
    ensures key in Without(store, gone) <==> !gone(key)
    ensures key in Without(store, gone) ==> Without(store, gone)[key] == store[key]
  {
  }

  lemma {:induction false} FreshCopy<Db(!new), D(!new)>(r: Repository<Db, D>, db: Db, store: Store<D>, t: nat, u: nat,
                                                       m: ViewMask, id: int)
    requires r.Fresh(db, store) && m in r.masks
    ensures r.KeyFor(t, u, m, id) in store ==> r.get(db, t, u, m, id) == Ok(store[r.KeyFor(t, u, m, id)])
  {
  }

  lemma {:induction false} KeptFresh<Db(!new), D(!new)>(r: Repository<Db, D>, before: Db, after: Db, id: int,
                                                       gone: string -> bool, store: Store<D>)
    requires r.WritesOnly(before, after, id) && r.CanHold(before, store)
    requires forall t, u, m :: r.Changes(before, after, t, u, m, id) ==> gone(r.KeyFor(t, u, m, id))
    ensures r.Fresh(after, Without(store, gone))
  {
    hide Repository.KeyFor;
    forall t, u, m, j | m in r.masks && r.KeyFor(t, u, m, j) in Without(store, gone)
      ensures r.get(after, t, u, m, j) == Ok(Without(store, gone)[r.KeyFor(t, u, m, j)])
    {
      assert r.get(before, t, u, m, j) == Ok(store[r.KeyFor(t, u, m, j)]);
      assert j == id ==> !r.Changes(before, after, t, u, m, j);
    }
  }

  /** The cache after one read into an empty one. */
  lemma {:induction false} OneCopy<Db(!new), D(!new)>(r: Repository<Db, D>, db: Db, t: nat, u: nat, m: ViewMask,
                                                     id: int) returns (store: Store<D>)
    requires m in r.masks && r.MaskSound() && r.get(db, t, u, m, id).Ok? && |r.KeyFor(t, u, m, id)| <= MAX_KEY_LEN
    ensures r.CanHold(db, store) && r.KeyFor(t, u, m, id) in store
    ensures Ok(store[r.KeyFor(t, u, m, id)]) == r.get(db, t, u, m, id)
  {
    hide Repository.KeyFor;
    var key := r.KeyFor(t, u, m, id);
    store := map[key := r.get(db, t, u, m, id).value];
    forall t', u', m', j | m' in r.masks && r.KeyFor(t', u', m', j) in store
      ensures r.get(db, t', u', m', j) == Ok(store[r.KeyFor(t', u', m', j)])
    {
      SameKey(r, t, u, m, id, t', u', m', j);
    }
  }

  ghost predicate ChangesSomething<Db(!new), D(!new)>(r: Repository<Db, D>, before: Db, after: Db, id: int) {
    exists t, u, m :: r.Changes(before, after, t, u, m, id)
  }

  /** With a client: an update that changes an answer leaves every fresh cache fresh exactly when the
      updated record exposes its id, and the scan and the deletion succeed. */
  lemma {:induction false} UpdateStaysFreshIff<Db(!new), D(!new)>(
    r: Repository<Db, D>, before: Db, after: Db, id: int, t: nat, u: nat, updated: Result<Option<D>, string>,
    exposedId: Option<int>, faults: Faults)
    requires r.hasClient && SafePrefix(r.prefix) && r.MaskSound()
    requires r.WritesOnly(before, after, id) && ChangesSomething(r, before, after, id)
    ensures (forall store :: r.CanHold(before, store) ==>
               r.Fresh(after, r.AfterUpdate(store, t, u, updated, exposedId, faults)))
       <==> updated.Ok? && updated.value.Some? && exposedId == Some(id) && !faults.scan && !faults.del
  {
    var removes := updated.Ok? && updated.value.Some? && exposedId.Some? && !faults.scan && !faults.del;
    var gone := (k: string) => removes && Matches(Pattern(r.prefix, IdText(exposedId.value)), k);
    forall store ensures r.AfterUpdate(store, t, u, updated, exposedId, faults) == Without(store, gone) {
    }
    forall t', u', m' ensures gone(r.KeyFor(t', u', m', id)) <==> removes && exposedId == Some(id) {
      if removes {
        PatternIsExact(r.prefix, exposedId.value, t', u', Fingerprint(r.hash, m'), id);
      }
    }
    hide Repository.MaskSound, Repository.KeyFor, Repository.Changes, Repository.WritesOnly, SafePrefix, Without,
         Repository.AfterUpdate, Repository.CanHold, Repository.Fresh, Matches;
    RemovalIff(r, before, after, id, gone);
  }

  /** The same for a deletion, which is given the id: it has to have hit a row. */
  lemma {:induction false} DeleteStaysFreshIff<Db(!new), D(!new)>(
    r: Repository<Db, D>, before: Db, after: Db, id: int, t: nat, u: nat, deleted: Result<nat, string>, faults: Faults)
    requires r.hasClient && SafePrefix(r.prefix) && r.MaskSound()
    requires r.WritesOnly(before, after, id) && ChangesSomething(r, before, after, id)
    ensures (forall store :: r.CanHold(before, store) ==>
               r.Fresh(after, r.AfterDelete(store, t, u, deleted, id, faults)))
       <==> deleted.Ok? && deleted.value > 0 && !faults.scan && !faults.del
  {
    var removes := deleted.Ok? && deleted.value > 0 && !faults.scan && !faults.del;
    var gone := (k: string) => removes && Matches(Pattern(r.prefix, IdText(id)), k);
    forall store ensures r.AfterDelete(store, t, u, deleted, id, faults) == Without(store, gone) {
    }
    forall t', u', m' ensures gone(r.KeyFor(t', u', m', id)) <==> removes {
      PatternIsExact(r.prefix, id, t', u', Fingerprint(r.hash, m'), id);
    }
    hide Repository.MaskSound, Repository.KeyFor, Repository.Changes, Repository.WritesOnly, SafePrefix, Without,
         Repository.AfterDelete, Repository.CanHold, Repository.Fresh, Matches;
    RemovalIff(r, before, after, id, gone);
  }

  /** Without a client only the copy of the writer, under no mask, is removed: that is enough exactly
      when it succeeds, and no other viewer's answer and no answer under another mask changes. */
  lemma {:induction false} UpdateWithoutClientIff<Db(!new), D(!new)>(
    r: Repository<Db, D>, before: Db, after: Db, id: int, t: nat, u: nat, updated: Result<Option<D>, string>,
    exposedId: Option<int>, faults: Faults)
    requires !r.hasClient && r.MaskSound()
    requires r.WritesOnly(before, after, id) && ChangesSomething(r, before, after, id)
    ensures (forall store :: r.CanHold(before, store) ==>
               r.Fresh(after, r.AfterUpdate(store, t, u, updated, exposedId, faults)))
       <==> (&& updated.Ok? && updated.value.Some? && exposedId == Some(id) && !faults.del
             && forall t', u', m' :: r.Changes(before, after, t', u', m', id) ==>
                  t' == t && u' == u && Fingerprint(r.hash, m') == Fingerprint(r.hash, None))
  {
    var removes := updated.Ok? && updated.value.Some? && exposedId.Some? && !faults.del;
    var gone := (k: string) => removes && k == r.KeyFor(t, u, None, exposedId.value);
    forall store ensures r.AfterUpdate(store, t, u, updated, exposedId, faults) == Without(store, gone) {
    }
    forall t', u', m'
      ensures gone(r.KeyFor(t', u', m', id)) <==>
        && removes && exposedId == Some(id) && t' == t && u' == u
        && Fingerprint(r.hash, m') == Fingerprint(r.hash, None)
    {
      if gone(r.KeyFor(t', u', m', id)) {
        SameKey(r, t', u', m', id, t, u, None, exposedId.value);
      }
    }
    hide Repository.MaskSound, Repository.KeyFor, Repository.Changes, Repository.WritesOnly, Without,
         Repository.AfterUpdate, Repository.CanHold, Repository.Fresh, Fingerprint;
    RemovalIff(r, before, after, id, gone);
  }

  lemma {:induction false} DeleteWithoutClientIff<Db(!new), D(!new)>(
    r: Repository<Db, D>, before: Db, after: Db, id: int, t: nat, u: nat, deleted: Result<nat, string>, faults: Faults)
    requires !r.hasClient && r.MaskSound()
    requires r.WritesOnly(before, after, id) && ChangesSomething(r, before, after, id)
    ensures (forall store :: r.CanHold(before, store) ==>
               r.Fresh(after, r.AfterDelete(store, t, u, deleted, id, faults)))
       <==> (&& deleted.Ok? && deleted.value > 0 && !faults.del
             && forall t', u', m' :: r.Changes(before, after, t', u', m', id) ==>
                  t' == t && u' == u && Fingerprint(r.hash, m') == Fingerprint(r.hash, None))
  {
    var removes := deleted.Ok? && deleted.value > 0 && !faults.del;
    var gone := (k: string) => removes && k == r.KeyFor(t, u, None, id);
    forall store ensures r.AfterDelete(store, t, u, deleted, id, faults) == Without(store, gone) {
    }
    forall t', u', m'
      ensures gone(r.KeyFor(t', u', m', id)) <==>
        removes && t' == t && u' == u && Fingerprint(r.hash, m') == Fingerprint(r.hash, None)
    {
      if gone(r.KeyFor(t', u', m', id)) {
        SameKey(r, t', u', m', id, t, u, None, id);
      }
    }
    hide Repository.MaskSound, Repository.KeyFor, Repository.Changes, Repository.WritesOnly, Without,
         Repository.AfterDelete, Repository.CanHold, Repository.Fresh, Fingerprint;
    RemovalIff(r, before, after, id, gone);
  }

  /** A table with one cell: the answer is the cell, whoever asks for record 1. */
  function OneCell(hasClient: bool): Repository<int, int> {
    Repository((db: int, t, u, m, id) => Ok(if id == 1 then Some(db) else None), "user:", s => [0, 0, 0, 0, 0, 0, 0, 0],
               hasClient, {None})
  }

  /** The cache was fresh when the cell held 5. After an update to 6 through UpdateWithCache, a read says 5. */
  ghost predicate ServesStale(hasClient: bool, store: Store<int>, exposedId: Option<int>, faults: Faults) {
    var r := OneCell(hasClient);
    var after, key := r.AfterUpdate(store, 0, 0, Ok(Some(6)), exposedId, faults), r.KeyFor(0, 0, None, 1);
    && r.CanHold(5, store)
    && Load(after, key, Some(() => r.get(6, 0, 0, None, 1)), Options(false, true), false, false).1 == Ok(Some(5))
  }

  /** So an update through a DTO without an int64 id, or with a scan or deletion that fails, can serve a
      stale record. */
  lemma {:induction false} HiddenIdServesStale()
    ensures exists store :: ServesStale(true, store, None, NO_FAULT)
    ensures exists store :: ServesStale(true, store, Some(1), Faults(true, false))
    ensures exists store :: ServesStale(true, store, Some(1), Faults(false, true))
    ensures exists store :: ServesStale(false, store, Some(1), Faults(false, true))
  {
    StaleCopy(true, None, NO_FAULT);
    StaleCopy(true, Some(1), Faults(true, false));
    StaleCopy(true, Some(1), Faults(false, true));
    StaleCopy(false, Some(1), Faults(false, true));
  }

  lemma {:induction false} StaleCopy(hasClient: bool, exposedId: Option<int>, faults: Faults)
    requires exposedId == None || faults.del || (hasClient && faults.scan)
    ensures exists store :: ServesStale(hasClient, store, exposedId, faults)
  {
    var r := OneCell(hasClient);
    assert r.MaskSound();
    ShortKey(hasClient);
    hide CacheKey, Fingerprint;
    var store := OneCopy(r, 5, 0, 0, None, 1);
    assert ServesStale(hasClient, store, exposedId, faults);
  }

  lemma {:induction false} ShortKey(hasClient: bool)
    ensures |OneCell(hasClient).KeyFor(0, 0, None, 1)| <= MAX_KEY_LEN
  {
  }
}
