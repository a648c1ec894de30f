/** The crash-safe intent journal of the acceptance driver:
    scripts/ops/container-restart-pvc-acceptance.py, class Evidence and submit_and_wait. */
module IntentJournal {
  import opened Basics

  // ---------- Data ----------

  /** A JSON value under "data", as far as the journal looks at it; falsy says how Python's `or` sees
      a value that is not a string. */
  datatype Value = JNull | JText(text: string) | JOther(falsy: bool)

  datatype Body = Body(data: Option<map<string, Value>>, rest: string)

  datatype Ack = Ack(operationId: string, resourceId: string, replayed: bool, result: string)

  datatype Intent = Intent(action: string, key: string, field: string, version: Option<string>,
                           digest: Option<string>, ack: Option<Ack>)

  datatype State = State(schema: string, runId: string, baseUrl: string, intents: map<string, Intent>,
                         instanceId: Option<string>)

  datatype Failure =
    | TargetMismatch | RunIdMismatch | UuidRequired
    | DuplicateKeySpelling | IntentChanged | KeyChanged | BodyChanged | NoData
    | NotAccepted | ResourceMismatch | ReplayChanged

  /** SHA-256 of the canonical body bytes, and the check for a canonical UUID. */
  datatype Env = Env(digest: Body -> string, isUuid: string -> bool)

  const SCHEMA := "container-restart-pvc-http-v1"
  const SNAKE := "idempotency_key"
  const CAMEL := "idempotencyKey"

  // ---------- The steps as functions of the journal ----------

  function Open(env: Env, file: Option<State>, baseUrl: string, runId: Option<string>,
                generated: string): Result<State, Failure> {
    var given := runId.Some? && runId.value != "";
    var s := match file
      case Some(saved) => saved
      case None => State(SCHEMA, if given then runId.value else generated, baseUrl, map[], None);
    if s.schema != SCHEMA || s.baseUrl != baseUrl then Err(TargetMismatch)
    else if given && s.runId != runId.value then Err(RunIdMismatch)
    else if !env.isUuid(s.runId) then Err(UuidRequired)
    else Ok(s)
  }

  function DataOf(body: Body): map<string, Value> {
    if body.data.None? then map[] else body.data.value
  }

  function KeyField(body: Body): string {
    if SNAKE in DataOf(body) then SNAKE else CAMEL
  }

  /** The key the caller supplies: a missing field and null are both None. */
  function Provided(body: Body): Value {
    var d, f := DataOf(body), KeyField(body);
    if f in d then d[f] else JNull
  }

  /** The key of a new intent, when it is a canonical UUID. */
  function NewKey(env: Env, provided: Value, generated: string): Option<string> {
    match provided
    case JNull => if env.isUuid(generated) then Some(generated) else None
    case JText(t) => var k := if t == "" then generated else t; if env.isUuid(k) then Some(k) else None
    case JOther(falsy) => if falsy && env.isUuid(generated) then Some(generated) else None
  }

  /** The body as it is sent: with the intent's key in it. */
  function WithKey(body: Body, field: string, key: string): Body
    requires body.data.Some?
  {
    body.(data := Some(body.data.value[field := JText(key)]))
  }

  /** Evidence.intent up to the save: the state in memory afterwards, and the body to send. A new
      intent enters the state before the remaining checks. */
  function Prepare(env: Env, s: State, name: string, action: string, body: Body, version: Option<string>,
                   generated: string)
    : (State, Result<Body, Failure>)
  {
    var d, field, provided := DataOf(body), KeyField(body), Provided(body);
    if CAMEL in d && SNAKE in d then (s, Err(DuplicateKeySpelling))
    else if name !in s.intents && NewKey(env, provided, generated).None? then (s, Err(UuidRequired))
    else
      var t := if name in s.intents then s
               else s.(intents :=
                 s.intents[name := Intent(action, NewKey(env, provided, generated).value, field, version, None, None)]);
      var i := t.intents[name];
      if i.action != action || i.version != version then (t, Err(IntentChanged))
      else if provided != JNull && provided != JText(i.key) then (t, Err(KeyChanged))
      else if field != i.field then (t, Err(BodyChanged))
      else if body.data.None? then (t, Err(NoData))
      else
        var sent := WithKey(body, field, i.key);
        if i.digest.Some? && i.digest.value != env.digest(sent) then (t, Err(BodyChanged))
        else (t.(intents := t.intents[name := i.(digest := Some(env.digest(sent)))]), Ok(sent))
  }

  /** What submit_and_wait does with a 202 answer, up to the save. */
  function RecordAck(s: State, name: string, ack: Ack, instanceId: Option<string>, env: Env): Result<State, Failure>
    requires name in s.intents
  {
    var i := s.intents[name];
    if !env.isUuid(ack.operationId) || !env.isUuid(ack.resourceId) then Err(UuidRequired)
    else if ack.result != "ACCEPTED" && !(i.action == "create" && ack.result == "QUEUED_FOR_OWNER") then
      Err(NotAccepted)
    else if instanceId.Some? && instanceId.value != "" && ack.resourceId != instanceId.value then Err(ResourceMismatch)
    else if i.ack.Some?
      && !(ack.operationId == i.ack.value.operationId && ack.resourceId == i.ack.value.resourceId && ack.replayed)
      then Err(ReplayChanged)
    else Ok(s.(intents := s.intents[name := i.(ack := Some(ack))], instanceId := Some(ack.resourceId)))
  }

  // ---------- What the steps promise ----------

  /** The journal that a process starts with: the one in the directory when there is one, for the same
      target and run, else a new one without intents. */
  ghost predicate Opens(env: Env, file: Option<State>, baseUrl: string, runId: Option<string>, generated: string,
                        s: State) {
    && s.schema == "container-restart-pvc-http-v1" && s.baseUrl == baseUrl && env.isUuid(s.runId)
    && (runId == None || runId == Some("") || runId == Some(s.runId))
    && if file.Some? then s == file.value
       else s.intents == map[] && s.instanceId == None && (runId == None || runId == Some("") ==> s.runId == generated)
  }

  lemma {:induction false} OpensIff(env: Env, file: Option<State>, baseUrl: string, runId: Option<string>,
                                    generated: string)
    ensures var r := Open(env, file, baseUrl, runId, generated);
      forall s :: r == Ok(s) <==> Opens(env, file, baseUrl, runId, generated, s)
  {
  }

  /** Where the key of a body stands, and what stands there: a missing field and null are both None. */
  ghost predicate KeyAt(body: Body, field: string, given: Value) {
    && body.data.Some? && !(SNAKE in body.data.value && CAMEL in body.data.value)
    && field == (if SNAKE in body.data.value then SNAKE else CAMEL)
    && given == (if field in body.data.value then body.data.value[field] else JNull)
  }

  function Sent(body: Body, field: string, key: string): Body
    requires body.data.Some?
  {
    Body(Some(body.data.value[field := JText(key)]), body.rest)
  }

  /** The intent is taken on under this key. A recorded one has to be what it was: action, version, field
      and key, and the body that was sent. A new one gets the key that is given, or a generated one. */
  ghost predicate TakesOn(env: Env, s: State, name: string, action: string, body: Body, version: Option<string>,
                          generated: string, field: string, key: string)
  {
    exists given :: KeyAt(body, field, given) && (given == JNull || given == JText(key)) &&
      if name in s.intents then
        var i := s.intents[name];
        && i.action == action && i.version == version && i.field == field && i.key == key
        && (i.digest == None || i.digest == Some(env.digest(Sent(body, field, key))))
      else
        env.isUuid(key) && (given == JNull || given == JText("") ==> key == generated)
  }

  /** The journal with the intent as it is when its body goes out. */
  ghost function Journalled(env: Env, s: State, name: string, action: string, body: Body, version: Option<string>,
                            field: string, key: string): State
    requires body.data.Some?
  {
    var ack := if name in s.intents then s.intents[name].ack else None;
    var digest := env.digest(Sent(body, field, key));
    s.(intents := s.intents[name := Intent(action, key, field, version, Some(digest), ack)])
  }

  /** A refusal may leave a new intent in memory, without a digest. */
  ghost predicate Untouched(env: Env, s: State, t: State, name: string, action: string, version: Option<string>) {
    t == s || (name !in s.intents && exists i: Intent ::
                 && t == s.(intents := s.intents[name := i])
                 && env.isUuid(i.key) && i == Intent(action, i.key, i.field, version, None, None))
  }

  lemma {:induction false} PrepareIff(env: Env, s: State, name: string, action: string, body: Body,
                                      version: Option<string>, generated: string)
    ensures var (t, r) := Prepare(env, s, name, action, body, version, generated);
      && (r.Ok? <==> exists field, key :: TakesOn(env, s, name, action, body, version, generated, field, key))
      && (forall field, key :: TakesOn(env, s, name, action, body, version, generated, field, key) ==>
           && body.data.Some? && r == Ok(Sent(body, field, key))
           && t == Journalled(env, s, name, action, body, version, field, key))
      && (r.Err? ==> Untouched(env, s, t, name, action, version))
  {
    var (t, r) := Prepare(env, s, name, action, body, version, generated);
    var field, given := KeyField(body), Provided(body);
    if body.data.Some? && !(SNAKE in body.data.value && CAMEL in body.data.value) {
      assert KeyAt(body, field, given);
    }
    if r.Ok? {
      var key := t.intents[name].key;
      assert TakesOn(env, s, name, action, body, version, generated, field, key);
    }
    if r.Err? && t != s {
      assert t == s.(intents := s.intents[name := t.intents[name]]);
    }
  }

  predicate SameAnswer(a: Ack, b: Ack) {
    a.operationId == b.operationId && a.resourceId == b.resourceId
  }

  predicate Accepted(i: Intent, ack: Ack) {
    ack.result == "ACCEPTED" || (i.action == "create" && ack.result == "QUEUED_FOR_OWNER")
  }

  /** The answer is for the instance that was asked about, if one was. */
  predicate ForInstance(ack: Ack, instanceId: Option<string>) {
    instanceId == None || instanceId == Some("") || instanceId == Some(ack.resourceId)
  }

  /** What is wrong with an answer, the first thing that is. */
  ghost predicate Complaint(env: Env, i: Intent, ack: Ack, instanceId: Option<string>, f: Failure) {
    if !env.isUuid(ack.operationId) || !env.isUuid(ack.resourceId) then f == UuidRequired
    else if !Accepted(i, ack) then f == NotAccepted
    else if !ForInstance(ack, instanceId) then f == ResourceMismatch
    else i.ack.Some? && !(SameAnswer(i.ack.value, ack) && ack.replayed) && f == ReplayChanged
  }

  lemma {:induction false} RecordAckIff(s: State, name: string, ack: Ack, instanceId: Option<string>, env: Env)
    requires name in s.intents
    ensures var r, i := RecordAck(s, name, ack, instanceId, env), s.intents[name];
      && (r.Ok? <==>
           && env.isUuid(ack.operationId) && env.isUuid(ack.resourceId)
           && Accepted(i, ack) && ForInstance(ack, instanceId)
           && (i.ack == None || (SameAnswer(i.ack.value, ack) && ack.replayed)))
      && (r.Err? ==> Complaint(env, i, ack, instanceId, r.error))
      && (r.Ok? ==>
           r.value == s.(intents := s.intents[name := i.(ack := Some(ack))], instanceId := Some(ack.resourceId)))
  {
  }

  // ---------- The object ----------

  /** The evidence directory: os.replace makes the new file visible at once or not at all. */
  class Disk {
    var file: Option<State>

    constructor ()
      ensures file == None
    {
      file := None;
    }
  }

  class Evidence {
    const disk: Disk
    var state: State

    constructor (env: Env, d: Disk, s: State)
      ensures disk == d && state == s
    {
      disk, state := d, s;
    }

    method Save()
      modifies disk
      ensures disk.file == Some(state)
    {
      disk.file := Some(state);
    }

    /** Records the intent and makes it durable before it returns the body to send. */
    method RecordIntent(env: Env, name: string, action: string, body: Body, version: Option<string>, generated: string)
      returns (r: Result<Body, Failure>)
      modifies this`state, disk
      ensures (state, r) == Prepare(env, old(state), name, action, body, version, generated)
      ensures disk.file == if r.Ok? then Some(state) else old(disk.file)
      ensures r.Ok? <==> exists field, key ::
        TakesOn(env, old(state), name, action, body, version, generated, field, key)
      ensures forall field, key ::
        TakesOn(env, old(state), name, action, body, version, generated, field, key) ==>
          && body.data.Some? && r == Ok(Sent(body, field, key))
          && state == Journalled(env, old(state), name, action, body, version, field, key)
      ensures r.Err? ==> Untouched(env, old(state), state, name, action, version)
    {
      PrepareIff(env, state, name, action, body, version, generated);
      hide TakesOn, Journalled, Untouched;
      var data := DataOf(body);
      if CAMEL in data && SNAKE in data {
        return Err(DuplicateKeySpelling);
      }
      var field := if SNAKE in data then SNAKE else CAMEL;
      var provided := if field in data then data[field] else JNull;
      if name !in state.intents {
        var key := NewKey(env, provided, generated);
        if key.None? {
          return Err(UuidRequired);
        }
        state := state.(intents := state.intents[name := Intent(action, key.value, field, version, None, None)]);
      }
      var intent := state.intents[name];
      if intent.action != action || intent.version != version {
        return Err(IntentChanged);
      }
      if provided != JNull && provided != JText(intent.key) {
        return Err(KeyChanged);
      }
      if field != intent.field {
        return Err(BodyChanged);
      }
      if body.data.None? {
        return Err(NoData);
      }
      var sent := WithKey(body, field, intent.key);
      var digest := env.digest(sent);
      if intent.digest.Some? && intent.digest.value != digest {
        return Err(BodyChanged);
      }
      state := state.(intents := state.intents[name := intent.(digest := Some(digest))]);
      Save();
      return Ok(sent);
    }

    /** Opens the evidence directory: a new journal, or the one that is there. */
    static method Reopen(env: Env, d: Disk, baseUrl: string, runId: Option<string>, generated: string)
      returns (r: Result<Evidence, Failure>)
      modifies d
      ensures r.Ok? ==>
        && fresh(r.value) && r.value.disk == d && d.file == Some(r.value.state)
        && Opens(env, old(d.file), baseUrl, runId, generated, r.value.state)
      ensures r.Err? ==> d.file == old(d.file) && forall s :: !Opens(env, old(d.file), baseUrl, runId, generated, s)
    {
      OpensIff(env, d.file, baseUrl, runId, generated);
      var given := runId.Some? && runId.value != "";
      var s := if d.file.Some? then d.file.value
               else State(SCHEMA, if given then runId.value else generated, baseUrl, map[], None);
      if s.schema != SCHEMA || s.baseUrl != baseUrl {
        return Err(TargetMismatch);
      }
      if given && s.runId != runId.value {
        return Err(RunIdMismatch);
      }
      if !env.isUuid(s.runId) {
        return Err(UuidRequired);
      }
      var e := new Evidence(env, d, s);
      e.Save();
      r := Ok(e);
    }

    method AcceptAck(env: Env, name: string, ack: Ack, instanceId: Option<string>) returns (r: Result<State, Failure>)
      requires name in state.intents
      modifies this`state, disk
      ensures r == RecordAck(old(state), name, ack, instanceId, env)
      ensures r.Ok? ==> state == r.value && disk.file == Some(state)
      ensures r.Err? ==> state == old(state) && disk.file == old(disk.file)
      ensures var i := old(state).intents[name];
        r.Ok? <==>
          && env.isUuid(ack.operationId) && env.isUuid(ack.resourceId)
          && Accepted(i, ack) && ForInstance(ack, instanceId)
          && (i.ack == None || (SameAnswer(i.ack.value, ack) && ack.replayed))
      ensures r.Err? ==> Complaint(env, old(state).intents[name], ack, instanceId, r.error)
      ensures r.Ok? ==>
        state == old(state).(intents := old(state).intents[name := old(state).intents[name].(ack := Some(ack))],
                             instanceId := Some(ack.resourceId))
    {
      RecordAckIff(state, name, ack, instanceId, env);
      r := RecordAck(state, name, ack, instanceId, env);
      if r.Ok? {
        state := r.value;
        Save();
      }
    }
  }

  // ---------- The protocol ----------

  /** A POST that left the driver. */
  datatype Post = Post(name: string, key: string, digest: string)

  datatype Acked = Acked(name: string, operationId: string)

  /** The directory, the running process if there is one (with the request it is about to send), the
      requests sent so far, the operations the owner holds by idempotency key, and the
      acknowledgements that reached the driver. */
  datatype World = World(disk: Option<State>, memory: Option<State>, ready: Option<(string, Body)>,
                         posts: seq<Post>, operations: map<string, string>, acks: seq<Acked>)

  ghost predicate Init(w: World) {
    w == World(None, None, None, [], map[], [])
  }

  datatype Step =
    | Start(baseUrl: string, runId: Option<string>, generated: string)
    | RecordStep(name: string, action: string, body: Body, version: Option<string>, generated: string, saved: bool)
    | SendLost(reached: Option<string>)
    | SendAcked(operationId: string, ack: Ack, instanceId: Option<string>, saved: bool)
    | SaveStep
    | Crash

  /** One step of the driver, the owner or the crash. saved false is a process that dies before the
      new file replaces the old one. A sent request may be lost on the way (reached None) or its answer
      may be, or it is acknowledged; the owner may answer anything. */
  ghost predicate Moves(env: Env, w: World, step: Step, v: World) {
    match step
    case Start(baseUrl, runId, generated) =>
      w.memory.None? &&
      var r := Open(env, w.disk, baseUrl, runId, generated);
      v == if r.Ok? then w.(memory := Some(r.value), disk := Some(r.value)) else w
    case RecordStep(name, action, body, version, generated, saved) =>
      w.memory.Some? && w.ready.None? &&
      var (s, r) := Prepare(env, w.memory.value, name, action, body, version, generated);
      v == if r.Err? then w.(memory := Some(s))
           else if saved then w.(memory := Some(s), disk := Some(s), ready := Some((name, r.value)))
           else w.(memory := None)
    case SendLost(reached) =>
      w.memory.Some? && w.ready.Some? && Provided(w.ready.value.1).JText? &&
      var key := Provided(w.ready.value.1).text;
      v == w.(ready := None, posts := w.posts + [PostOf(env, w)],
              operations := if reached.None? || key in w.operations then w.operations
                            else w.operations[key := reached.value])
    case SendAcked(operationId, ack, instanceId, saved) =>
      w.memory.Some? && w.ready.Some? && Provided(w.ready.value.1).JText?
        && w.ready.value.0 in w.memory.value.intents &&
      var name, key := w.ready.value.0, Provided(w.ready.value.1).text;
      ack.operationId == operationId &&
      var sent := w.(ready := None, posts := w.posts + [PostOf(env, w)], operations := w.operations[key := operationId],
                     acks := w.acks + [Acked(name, operationId)]);
      var r := RecordAck(w.memory.value, name, ack, instanceId, env);
      v == if r.Err? then sent
           else if saved then sent.(memory := Some(r.value), disk := Some(r.value))
           else sent.(memory := None)
    case SaveStep => w.memory.Some? && v == w.(disk := w.memory)
    case Crash => v == w.(memory := None, ready := None)
  }

  /** An owner that keeps one operation for each key. */
  ghost predicate OwnerKeeps(w: World, step: Step) {
    step.SendAcked? && w.ready.Some? && Provided(w.ready.value.1).JText? ==>
      var key := Provided(w.ready.value.1).text;
      key in w.operations ==> w.operations[key] == step.operationId
  }

  ghost predicate Next(env: Env, w: World, step: Step, v: World) {
    Moves(env, w, step, v) && OwnerKeeps(w, step)
  }

  function PostOf(env: Env, w: World): Post
    requires w.ready.Some? && Provided(w.ready.value.1).JText?
  {
    Post(w.ready.value.0, Provided(w.ready.value.1).text, env.digest(w.ready.value.1))
  }

  /** The recorded intent of a step carries this key and digest. */
  predicate Records(s: State, name: string, key: string, digest: string) {
    name in s.intents && s.intents[name].key == key && s.intents[name].digest == Some(digest)
  }

  /** later keeps what earlier recorded: keys, and digests once there are any. */
  ghost predicate Extends(earlier: State, later: State) {
    forall name :: name in earlier.intents ==>
      && name in later.intents
      && later.intents[name].key == earlier.intents[name].key
      && (earlier.intents[name].digest.Some? ==> later.intents[name].digest == earlier.intents[name].digest)
  }

  ghost predicate Inv(env: Env, w: World) {
    && (w.posts != [] ==> w.disk.Some?)
    && (forall p :: p in w.posts ==> Records(w.disk.value, p.name, p.key, p.digest))
    && (w.memory.Some? ==> w.disk.Some? && Extends(w.disk.value, w.memory.value))
    && (w.ready.Some? ==>
          && w.memory.Some? && Provided(w.ready.value.1).JText?
          && Records(w.disk.value, w.ready.value.0, Provided(w.ready.value.1).text, env.digest(w.ready.value.1)))
    && (forall a :: a in w.acks ==> w.disk.Some? && Holds(w.disk.value, w.operations, a))
  }

  /** The owner holds the acknowledged operation under the recorded key of the step. */
  predicate Holds(s: State, operations: map<string, string>, a: Acked) {
    && a.name in s.intents
    && s.intents[a.name].key in operations
    && operations[s.intents[a.name].key] == a.operationId
  }

  /** What Prepare hands back to be sent carries the recorded key and digest. */
  lemma {:induction false} PrepareRecords(env: Env, s: State, name: string, action: string, body: Body,
                                          version: Option<string>, generated: string)
    ensures var (t, r) := Prepare(env, s, name, action, body, version, generated);
      && Extends(s, t)
      && (r.Ok? ==> Provided(r.value).JText? && Records(t, name, Provided(r.value).text, env.digest(r.value)))
  {
  }

  lemma {:induction false} AckRecords(s: State, name: string, ack: Ack, instanceId: Option<string>, env: Env)
    requires name in s.intents
    ensures var r := RecordAck(s, name, ack, instanceId, env); r.Ok? ==> Extends(s, r.value)
  {
  }

  lemma {:induction false} OpenReads(env: Env, file: Option<State>, baseUrl: string, runId: Option<string>,
                                     generated: string)
    ensures var r := Open(env, file, baseUrl, runId, generated);
      r.Ok? ==> if file.Some? then r.value == file.value else r.value.intents == map[]
  {
  }

  lemma {:induction false} StartKeepsInv(env: Env, w: World, step: Step, v: World)
    requires step.Start? && Inv(env, w) && Next(env, w, step, v)
    ensures Inv(env, v)
  {
    OpenReads(env, w.disk, step.baseUrl, step.runId, step.generated);
    hide Open, Provided;
  }

  lemma {:induction false} RecordKeepsInv(env: Env, w: World, step: Step, v: World)
    requires step.RecordStep? && Inv(env, w) && Next(env, w, step, v)
    ensures Inv(env, v)
  {
    PrepareRecords(env, w.memory.value, step.name, step.action, step.body, step.version, step.generated);
    hide Prepare, Provided;
  }

  lemma {:induction false} LostKeepsInv(env: Env, w: World, step: Step, v: World)
    requires step.SendLost? && Inv(env, w) && Next(env, w, step, v)
    ensures Inv(env, v)
  {
    hide Provided, Extends;
  }

  lemma {:induction false} AckKeepsInv(env: Env, w: World, step: Step, v: World)
    requires step.SendAcked? && Inv(env, w) && Next(env, w, step, v)
    ensures Inv(env, v)
  {
    AckRecords(w.memory.value, w.ready.value.0, step.ack, step.instanceId, env);
    hide RecordAck, Provided;
  }

  lemma {:induction false} SaveKeepsInv(env: Env, w: World, step: Step, v: World)
    requires step.SaveStep? && Inv(env, w) && Next(env, w, step, v)
    ensures Inv(env, v)
  {
    hide Provided;
  }

  lemma {:induction false} CrashKeepsInv(env: Env, w: World, step: Step, v: World)
    requires step.Crash? && Inv(env, w) && Next(env, w, step, v)
    ensures Inv(env, v)
  {
    hide Provided, Extends;
  }

  lemma {:induction false} StepKeepsInv(env: Env, w: World, step: Step, v: World)
    requires Inv(env, w) && Next(env, w, step, v)
    ensures Inv(env, v)
  {
    hide Inv, Next;
    match step
    case Start(_, _, _) => StartKeepsInv(env, w, step, v);
    case RecordStep(_, _, _, _, _, _) => RecordKeepsInv(env, w, step, v);
    case SendLost(_) => LostKeepsInv(env, w, step, v);
    case SendAcked(_, _, _, _) => AckKeepsInv(env, w, step, v);
    case SaveStep => SaveKeepsInv(env, w, step, v);
    case Crash => CrashKeepsInv(env, w, step, v);
  }

  /** Any number of processes, crashes and re-runs over one evidence directory. */
  ghost predicate IsRun(env: Env, steps: seq<Step>, worlds: seq<World>) {
    && |worlds| == |steps| + 1
    && Init(worlds[0])
    && forall i :: 0 <= i < |steps| ==> Next(env, worlds[i], steps[i], worlds[i + 1])
  }

  lemma {:induction false} RunKeepsInv(env: Env, steps: seq<Step>, worlds: seq<World>, n: nat)
    requires IsRun(env, steps, worlds) && n <= |steps|
    ensures Inv(env, worlds[n])
  {
    if n > 0 {
      RunKeepsInv(env, steps, worlds, n - 1);
      hide Inv, Next;
      assert Next(env, worlds[n - 1], steps[n - 1], worlds[n]);
      StepKeepsInv(env, worlds[n - 1], steps[n - 1], worlds[n]);
    }
  }

  /** Over the whole run, all requests sent for a named step carry one key and one body digest. */
  lemma {:induction false} OneKeyAndBody(env: Env, steps: seq<Step>, worlds: seq<World>, n: nat, p: Post, q: Post)
    requires IsRun(env, steps, worlds) && n <= |steps|
    requires p in worlds[n].posts && q in worlds[n].posts && p.name == q.name
    ensures p == q
  {
    RunKeepsInv(env, steps, worlds, n);
  }

  /** A step that sends a request finds its key and digest already in the directory. */
  lemma {:induction false} DurableBeforeSend(env: Env, steps: seq<Step>, worlds: seq<World>, n: nat, p: Post)
    requires IsRun(env, steps, worlds) && n < |steps|
    requires worlds[n + 1].posts == worlds[n].posts + [p]
    ensures worlds[n].disk.Some? && Records(worlds[n].disk.value, p.name, p.key, p.digest)
  {
    RunKeepsInv(env, steps, worlds, n);
    assert Next(env, worlds[n], steps[n], worlds[n + 1]);
    hide Prepare, Open, RecordAck, Records;
    assert worlds[n + 1].posts != worlds[n].posts;
    assert worlds[n + 1].posts[|worlds[n].posts|] == p;
  }

  /** Posts are only ever appended: what was sent stays recorded. */
  lemma {:induction false} SentStaysRecorded(env: Env, steps: seq<Step>, worlds: seq<World>, n: nat, m: nat, p: Post)
    requires IsRun(env, steps, worlds) && n <= m <= |steps| && p in worlds[n].posts
    ensures worlds[m].disk.Some? && Records(worlds[m].disk.value, p.name, p.key, p.digest)
    ensures p in worlds[m].posts
    decreases m
  {
    RunKeepsInv(env, steps, worlds, m);
    if n < m {
      SentStaysRecorded(env, steps, worlds, n, m - 1, p);
      assert Next(env, worlds[m - 1], steps[m - 1], worlds[m]);
      hide Prepare, Open, RecordAck, Records;
    }
  }

  /** With an owner that keeps one operation for each key, at most one operation is ever
      acknowledged for a named step. */
  lemma {:induction false} OneOperation(env: Env, steps: seq<Step>, worlds: seq<World>, n: nat, a: Acked, b: Acked)
    requires IsRun(env, steps, worlds) && n <= |steps|
    requires a in worlds[n].acks && b in worlds[n].acks && a.name == b.name
    ensures a == b
  {
    RunKeepsInv(env, steps, worlds, n);
  }

  // ---------- Answers ----------

  /** later has every answer of earlier, for the same operation and resource. */
  ghost predicate KeepsAnswers(earlier: State, later: State) {
    forall name :: name in earlier.intents && earlier.intents[name].ack.Some? ==>
      && name in later.intents && later.intents[name].ack.Some?
      && SameAnswer(earlier.intents[name].ack.value, later.intents[name].ack.value)
  }

  ghost predicate AnswersDurable(w: World) {
    w.memory.Some? ==> w.disk.Some? && KeepsAnswers(w.disk.value, w.memory.value)
  }

  ghost predicate DiskKeeps(w: World, v: World) {
    w.disk.Some? ==> v.disk.Some? && KeepsAnswers(w.disk.value, v.disk.value)
  }

  lemma {:induction false} PrepareKeepsAnswers(env: Env, s: State, name: string, action: string, body: Body,
                                               version: Option<string>, generated: string)
    ensures KeepsAnswers(s, Prepare(env, s, name, action, body, version, generated).0)
  {
  }

  lemma {:induction false} AckKeepsAnswers(s: State, name: string, ack: Ack, instanceId: Option<string>, env: Env)
    requires name in s.intents
    ensures var r := RecordAck(s, name, ack, instanceId, env); r.Ok? ==> KeepsAnswers(s, r.value)
  {
    RecordAckIff(s, name, ack, instanceId, env);
    hide RecordAck;
  }

  lemma {:induction false} KeepsTransitively(a: State, b: State, c: State)
    requires KeepsAnswers(a, b) && KeepsAnswers(b, c)
    ensures KeepsAnswers(a, c)
  {
  }

  lemma {:induction false} StepKeepsAnswers(env: Env, w: World, step: Step, v: World)
    requires AnswersDurable(w) && Moves(env, w, step, v)
    ensures AnswersDurable(v) && DiskKeeps(w, v)
  {
    if step.RecordStep? {
      PrepareKeepsAnswers(env, w.memory.value, step.name, step.action, step.body, step.version, step.generated);
      var s := Prepare(env, w.memory.value, step.name, step.action, step.body, step.version, step.generated).0;
      KeepsTransitively(w.disk.value, w.memory.value, s);
    } else if step.SendAcked? {
      AckKeepsAnswers(w.memory.value, w.ready.value.0, step.ack, step.instanceId, env);
      var r := RecordAck(w.memory.value, w.ready.value.0, step.ack, step.instanceId, env);
      if r.Ok? {
        KeepsTransitively(w.disk.value, w.memory.value, r.value);
      }
    } else if step.Start? {
      OpenReads(env, w.disk, step.baseUrl, step.runId, step.generated);
    }
    hide Prepare, RecordAck, Open, Provided;
  }

  /** A run with any owner. */
  ghost predicate IsAnyRun(env: Env, steps: seq<Step>, worlds: seq<World>) {
    && |worlds| == |steps| + 1 && Init(worlds[0])
    && forall i :: 0 <= i < |steps| ==> Moves(env, worlds[i], steps[i], worlds[i + 1])
  }

  /** Once the answer to a step is in the directory, its operation and its resource never change, whatever
      the owner answers later. */
  lemma {:induction false} AnswerStays(env: Env, steps: seq<Step>, worlds: seq<World>, n: nat, m: nat)
    requires IsAnyRun(env, steps, worlds) && n <= m <= |steps|
    ensures AnswersDurable(worlds[m]) && DiskKeeps(worlds[n], worlds[m])
    decreases m
  {
    hide KeepsAnswers;
    if n < m {
      AnswerStays(env, steps, worlds, n, m - 1);
      assert Moves(env, worlds[m - 1], steps[m - 1], worlds[m]);
      hide Moves;
      StepKeepsAnswers(env, worlds[m - 1], steps[m - 1], worlds[m]);
      if worlds[n].disk.Some? {
        KeepsTransitively(worlds[n].disk.value, worlds[m - 1].disk.value, worlds[m].disk.value);
      }
    } else if m > 0 {
      AnswerStays(env, steps, worlds, n - 1, m - 1);
      assert Moves(env, worlds[m - 1], steps[m - 1], worlds[m]);
      hide Moves;
      StepKeepsAnswers(env, worlds[m - 1], steps[m - 1], worlds[m]);
      SameKeeps(worlds[m]);
    } else {
      SameKeeps(worlds[m]);
    }
  }

  lemma {:induction false} SameKeeps(w: World)
    ensures DiskKeeps(w, w)
  {
  }
}
