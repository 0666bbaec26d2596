/** Any number of mutations at once: optimistic writes, responses, invalidation and refetching of a query cache. */
module CacheProtocol {
  import opened Optional
  import opened Json
  import opened ModelMeta
  import opened NestedWriteVisitor
  import opened Mutator
  import opened Invalidation

  /** A query key; `zenstack` is the key's prefix test and `optimistic` its opt-in flag. */
  datatype Key = Key(model: string, op: string, args: Json, zenstack: bool, optimistic: bool)

  /** A cache entry. `residue` names the mutations whose optimistic writes its data still contains. */
  datatype Entry = Entry(data: Json, failed: bool, residue: set<nat>, invalidated: bool)

  /** What one iteration of the update loop read before it awaited the new data. */
  datatype Reading = Reading(key: Key, data: Json, residue: set<nat>)

  datatype Phase =
    | Updating(todo: seq<Key>, reading: Option<Reading>)  // inside onMutate
    | Requesting                                          // waiting for the server
    | Responded                                           // onSuccess or onError is done
    | Settled                                             // onSettled is done

  datatype Run = Run(mutation: Mutation, phase: Phase)

  datatype State = State(cache: map<Key, Entry>, running: map<nat, Run>)

  /** `invalidates`: mutations are set up with an invalidation function. */
  datatype Config = Config(meta: ModelMeta, invalidates: bool)

  datatype Step =
    | Start(id: nat, mutation: Mutation, keys: seq<Key>)
    | Read(id: nat)
    | Write(id: nat, env: Env)
    | Send(id: nat)
    | Respond(id: nat, ok: bool)
    | Settle(id: nat)
    | Fetch(key: Key, data: Json)
    | FailFetch(key: Key)  // a refetch that fails keeps the data, its residue and its mark

  /** The entry of a query that has failed before it ever had data. */
  const NO_DATA := Entry(Undefined, true, {}, false)

  // ----- steps -----

  predicate Eligible(k: Key, e: Entry) {
    k.zenstack && !e.failed && k.optimistic
  }

  ghost predicate Accepts(cfg: Config, m: Mutation, k: Key) {
    ShouldInvalidate(cfg.meta, Mutated(cfg.meta, m), k.model, k.args)
  }

  /** `invalidate(predicate)`, unless computing the predicate throws. */
  ghost function Invalidate(cfg: Config, m: Mutation, cache: map<Key, Entry>): map<Key, Entry> {
    if !cfg.invalidates || FullVisit(cfg.meta, m).threw then cache
    else map k | k in cache :: if Accepts(cfg, m, k) then cache[k].(invalidated := true) else cache[k]
  }

  function SetPhase(s: State, id: nat, p: Phase): State
    requires id in s.running
  {
    s.(running := s.running[id := s.running[id].(phase := p)])
  }

  predicate UpdateThrows(cfg: Config, m: Mutation, r: Reading) {
    Container(r.data) && "find" <= r.key.op && OwnVisit(cfg.meta, m).threw
  }

  ghost function NewData(cfg: Config, env: Env, m: Mutation, r: Reading): Option<Json>
    requires ValidMeta(cfg.meta)
  {
    ApplyMutation(env, cfg.meta, r.key.model, r.key.op, r.data, OwnVisit(cfg.meta, m).events)
  }

  ghost predicate Next(cfg: Config, s: State, step: Step, t: State)
    requires ValidMeta(cfg.meta)
  {
    match step
    case Start(id, m, keys) =>
      && id !in s.running && (forall k | k in keys :: k in s.cache)
      && t == s.(running := s.running[id := Run(m, Updating(keys, None))])
    case Read(id) =>
      && id in s.running && s.running[id].phase.Updating? && s.running[id].phase.reading.None?
      && s.running[id].phase.todo != []
      && var k, rest := s.running[id].phase.todo[0], s.running[id].phase.todo[1..];
         k in s.cache
         && t == SetPhase(s, id, Updating(rest,
                   if Eligible(k, s.cache[k]) then Some(Reading(k, s.cache[k].data, s.cache[k].residue)) else None))
    case Write(id, env) =>
      && id in s.running && s.running[id].phase.Updating? && s.running[id].phase.reading.Some?
      && var m, r, todo := s.running[id].mutation, s.running[id].phase.reading.value, s.running[id].phase.todo;
         if UpdateThrows(cfg, m, r) then t == SetPhase(s, id, Responded)
         else
           var d := NewData(cfg, env, m, r);
           var next := SetPhase(s, id, Updating(todo, None));
           t == if d.None? then next
                else next.(cache := s.cache[r.key := Entry(d.value, false, r.residue + {id}, false)])
    case Send(id) =>
      && id in s.running && s.running[id].phase == Updating([], None)
      && t == SetPhase(s, id, Requesting)
    case Respond(id, ok) =>
      && id in s.running && s.running[id].phase.Requesting?
      && t == SetPhase(s, id, Responded)
               .(cache := if ok then Invalidate(cfg, s.running[id].mutation, s.cache) else s.cache)
    case Settle(id) =>
      && id in s.running && s.running[id].phase.Responded?
      && t == SetPhase(s, id, Settled).(cache := Invalidate(cfg, s.running[id].mutation, s.cache))
    case Fetch(k, data) =>
      && Follows(cfg.meta, k.model, data, k.args)
      && t == s.(cache := s.cache[k := Entry(data, false, {}, false)])
    case FailFetch(k) =>
      t == s.(cache := s.cache[k := if k in s.cache then s.cache[k].(failed := true) else NO_DATA])
  }

  ghost predicate Init(cfg: Config, s: State) {
    s.running == map[]
    && forall k | k in s.cache :: s.cache[k].residue == {} && Follows(cfg.meta, k.model, s.cache[k].data, k.args)
  }

  ghost predicate IsRun(cfg: Config, states: seq<State>, steps: seq<Step>)
    requires ValidMeta(cfg.meta)
  {
    |states| == |steps| + 1 && Init(cfg, states[0])
    && forall i | 0 <= i < |steps| :: Next(cfg, states[i], steps[i], states[i + 1])
  }

  // ----- the invariant -----

  predicate InFlight(s: State, id: nat) {
    id in s.running && !s.running[id].phase.Settled?
  }

  /** Optimistic data is owned by an unsettled mutation or marked for refetching. */
  ghost predicate Safe(s: State) {
    forall k | k in s.cache && s.cache[k].residue != {} ::
      s.cache[k].invalidated || exists id | id in s.cache[k].residue :: InFlight(s, id)
  }

  /** The mutation exists and its invalidation will accept the key. */
  ghost predicate Answers(cfg: Config, s: State, id: nat, k: Key) {
    id in s.running && !FullVisit(cfg.meta, s.running[id].mutation).threw && Accepts(cfg, s.running[id].mutation, k)
  }

  ghost predicate EntryOk(cfg: Config, s: State, k: Key, data: Json, residue: set<nat>) {
    Follows(cfg.meta, k.model, data, k.args) && forall id | id in residue :: Answers(cfg, s, id, k)
  }

  ghost predicate CacheOk(cfg: Config, s: State) {
    forall k | k in s.cache :: EntryOk(cfg, s, k, s.cache[k].data, s.cache[k].residue)
  }

  ghost predicate ReadingOk(cfg: Config, s: State, p: Phase) {
    p.Updating? && p.reading.Some? ==>
      EntryOk(cfg, s, p.reading.value.key, p.reading.value.data, p.reading.value.residue)
  }

  ghost predicate Inv(cfg: Config, s: State) {
    CacheOk(cfg, s) && (forall id | id in s.running :: ReadingOk(cfg, s, s.running[id].phase))
  }

  /** Answers never expire: a mutation is not forgotten and does not change. */
  ghost predicate Grows(s: State, t: State) {
    forall id | id in s.running :: id in t.running && t.running[id].mutation == s.running[id].mutation
  }

  lemma EntryStaysOk(cfg: Config, s: State, t: State, k: Key, data: Json, residue: set<nat>)
    requires Grows(s, t) && EntryOk(cfg, s, k, data, residue)
    ensures EntryOk(cfg, t, k, data, residue)
  {
    forall id | id in residue ensures Answers(cfg, t, id, k) {
      assert Answers(cfg, s, id, k);
    }
  }

  lemma StepGrows(cfg: Config, s: State, step: Step, t: State)
    requires ValidMeta(cfg.meta) && Next(cfg, s, step, t)
    ensures Grows(s, t)
  {
  }

  /** What a write leaves in the cache follows the query, and its mutation answers for it. */
  lemma WrittenIsOk(cfg: Config, s: State, id: nat, env: Env, t: State)
    requires ValidMeta(cfg.meta) && Inv(cfg, s) && Next(cfg, s, Write(id, env), t)
    requires var r := s.running[id].phase.reading.value;
      !UpdateThrows(cfg, s.running[id].mutation, r) && NewData(cfg, env, s.running[id].mutation, r).Some?
    ensures var k := s.running[id].phase.reading.value.key; EntryOk(cfg, t, k, t.cache[k].data, t.cache[k].residue)
  {
    var m, r := s.running[id].mutation, s.running[id].phase.reading.value;
    var events := OwnVisit(cfg.meta, m).events;
    assert ReadingOk(cfg, s, s.running[id].phase);
    EntryStaysOk(cfg, s, t, r.key, r.data, r.residue);
    ApplyFollows(env, cfg.meta, r.key.model, r.data, events, r.key.args);
    ChangedIsInvalidated(env, cfg.meta, m, r.key.model, r.key.op, r.data, r.key.args);
    assert Answers(cfg, t, id, r.key);
  }

  lemma StepKeepsCacheOk(cfg: Config, s: State, step: Step, t: State)
    requires ValidMeta(cfg.meta) && Inv(cfg, s) && Next(cfg, s, step, t)
    ensures CacheOk(cfg, t)
  {
    StepGrows(cfg, s, step, t);
    if step.Write? && t.cache != s.cache {
      WrittenIsOk(cfg, s, step.id, step.env, t);
    }
    forall k | k in t.cache ensures EntryOk(cfg, t, k, t.cache[k].data, t.cache[k].residue) {
      if k in s.cache && t.cache[k].data == s.cache[k].data && t.cache[k].residue == s.cache[k].residue {
        assert EntryOk(cfg, s, k, s.cache[k].data, s.cache[k].residue);
        EntryStaysOk(cfg, s, t, k, s.cache[k].data, s.cache[k].residue);
      }
    }
  }

  lemma StepKeepsInv(cfg: Config, s: State, step: Step, t: State)
    requires ValidMeta(cfg.meta) && Inv(cfg, s) && Next(cfg, s, step, t)
    ensures Inv(cfg, t)
  {
    StepGrows(cfg, s, step, t);
    StepKeepsCacheOk(cfg, s, step, t);
    forall id | id in t.running ensures ReadingOk(cfg, t, t.running[id].phase) {
      var p := t.running[id].phase;
      if p.Updating? && p.reading.Some? {
        var r := p.reading.value;
        if id in s.running && s.running[id].phase == p {
          assert ReadingOk(cfg, s, s.running[id].phase);
        } else {
          assert step.Read? && EntryOk(cfg, s, r.key, s.cache[r.key].data, s.cache[r.key].residue);
        }
        EntryStaysOk(cfg, s, t, r.key, r.data, r.residue);
      }
    }
  }

  ghost predicate Owned(s: State, e: Entry) {
    e.residue != {} && !e.invalidated ==> exists id | id in e.residue :: InFlight(s, id)
  }

  /** Invalidation by a settling mutation covers every entry it answers for. */
  lemma InvalidationCovers(cfg: Config, s: State, id: nat, k: Key)
    requires cfg.invalidates && CacheOk(cfg, s) && id in s.running && k in s.cache && id in s.cache[k].residue
    ensures Invalidate(cfg, s.running[id].mutation, s.cache)[k].invalidated
  {
    assert EntryOk(cfg, s, k, s.cache[k].data, s.cache[k].residue);
    assert Answers(cfg, s, id, k);
  }

  lemma SettleKeepsOwned(cfg: Config, s: State, id: nat, t: State, k: Key)
    requires ValidMeta(cfg.meta) && cfg.invalidates && Inv(cfg, s) && Safe(s) && Next(cfg, s, Settle(id), t)
      && k in t.cache
    ensures Owned(t, t.cache[k])
  {
    if id in s.cache[k].residue {
      InvalidationCovers(cfg, s, id, k);
    } else if t.cache[k].residue != {} && !t.cache[k].invalidated {
      var other :| other in s.cache[k].residue && InFlight(s, other);
      assert InFlight(t, other);
    }
  }

  lemma OtherKeepsOwned(cfg: Config, s: State, step: Step, t: State, k: Key)
    requires ValidMeta(cfg.meta) && Safe(s) && Next(cfg, s, step, t) && !step.Settle? && k in t.cache
    ensures Owned(t, t.cache[k])
  {
    if t.cache[k].residue != {} && !t.cache[k].invalidated {
      if k in s.cache && t.cache[k].(failed := s.cache[k].failed) == s.cache[k] {
        var id :| id in s.cache[k].residue && InFlight(s, id);
        assert InFlight(t, id);
      } else {
        assert step.Write? && InFlight(t, step.id);
      }
    }
  }

  /** With invalidation, no step leaves optimistic data without an owner or a mark. */
  lemma StepKeepsSafe(cfg: Config, s: State, step: Step, t: State)
    requires ValidMeta(cfg.meta) && cfg.invalidates && Inv(cfg, s) && Safe(s) && Next(cfg, s, step, t)
    ensures Safe(t)
  {
    forall k | k in t.cache ensures Owned(t, t.cache[k]) {
      if step.Settle? {
        SettleKeepsOwned(cfg, s, step.id, t, k);
      } else {
        OtherKeepsOwned(cfg, s, step, t, k);
      }
    }
  }

  /** Over every run, with any interleaving of any number of mutations. */
  lemma {:induction false} RunsAreSafe(cfg: Config, states: seq<State>, steps: seq<Step>)
    requires ValidMeta(cfg.meta) && cfg.invalidates && IsRun(cfg, states, steps)
    ensures Inv(cfg, states[|steps|]) && Safe(states[|steps|])
    decreases |steps|
  {
    var n := |steps|;
    if n == 0 {
    } else {
      RunsAreSafe(cfg, states[..n], steps[..n - 1]);
      assert Next(cfg, states[n - 1], steps[n - 1], states[n]);
      StepKeepsInv(cfg, states[n - 1], steps[n - 1], states[n]);
      StepKeepsSafe(cfg, states[n - 1], steps[n - 1], states[n]);
    }
  }

  ghost predicate Quiet(s: State) {
    forall id | id in s.running :: s.running[id].phase.Settled?
  }

  /** Once nothing is in flight, whatever optimistic data is left will be refetched. */
  lemma NoResidueSurvives(cfg: Config, states: seq<State>, steps: seq<Step>, k: Key)
    requires ValidMeta(cfg.meta) && cfg.invalidates && IsRun(cfg, states, steps)
    requires var s := states[|steps|]; Quiet(s) && k in s.cache && s.cache[k].residue != {}
    ensures states[|steps|].cache[k].invalidated
  {
    RunsAreSafe(cfg, states, steps);
  }

  // ----- without invalidation -----

  /** A mutation that changes an eligible entry. */
  ghost predicate Changes(cfg: Config, env: Env, m: Mutation, k: Key, data: Json)
    requires ValidMeta(cfg.meta)
  {
    k.zenstack && k.optimistic && Follows(cfg.meta, k.model, data, k.args) && !OwnVisit(cfg.meta, m).threw
    && NewData(cfg, env, m, Reading(k, data, {})).Some?
  }

  lemma UnsafeRun(cfg: Config, env: Env, m: Mutation, k: Key, data: Json) returns (states: seq<State>, steps: seq<Step>)
    requires ValidMeta(cfg.meta) && !cfg.invalidates && Changes(cfg, env, m, k, data)
    ensures IsRun(cfg, states, steps) && !Safe(states[|steps|])
  {
    var clean := map[k := Entry(data, false, {}, false)];
    var r := Reading(k, data, {});
    var dirty := map[k := Entry(NewData(cfg, env, m, r).value, false, {0}, false)];
    states := [State(clean, map[]), At(clean, m, Updating([k], None)), At(clean, m, Updating([], Some(r))),
               At(dirty, m, Updating([], None)), At(dirty, m, Requesting), At(dirty, m, Responded),
               At(dirty, m, Settled)];
    steps := [Start(0, m, [k]), Read(0), Write(0, env), Send(0), Respond(0, true), Settle(0)];
    assert [k][1..] == [];
    Moves(clean, m, Updating([k], None), Updating([], Some(r)));
    Moves(clean, m, Updating([], Some(r)), Updating([], None));
    assert clean[k := dirty[k]] == dirty;
    Moves(dirty, m, Updating([], None), Requesting);
    Moves(dirty, m, Requesting, Responded);
    Moves(dirty, m, Responded, Settled);
    assert Next(cfg, states[0], steps[0], states[1]) && Next(cfg, states[1], steps[1], states[2]);
    assert {} + {0} == {0} && Next(cfg, states[2], steps[2], states[3]) && Next(cfg, states[3], steps[3], states[4]);
    assert Next(cfg, states[4], steps[4], states[5]) && Next(cfg, states[5], steps[5], states[6]);
    assert states[6].cache[k].residue == {0};
  }

  function At(cache: map<Key, Entry>, m: Mutation, p: Phase): State {
    State(cache, map[0 := Run(m, p)])
  }

  lemma Moves(cache: map<Key, Entry>, m: Mutation, p: Phase, q: Phase)
    ensures SetPhase(At(cache, m, p), 0, q) == At(cache, m, q)
  {
    assert map[0 := Run(m, p)][0 := Run(m, q)] == map[0 := Run(m, q)];
  }

  /** Optimistic updates are safe in all runs if and only if mutations invalidate. */
  lemma SafeIffInvalidating(cfg: Config, env: Env, m: Mutation, k: Key, data: Json)
    requires ValidMeta(cfg.meta) && Changes(cfg, env, m, k, data)
    ensures cfg.invalidates <==> forall states, steps | IsRun(cfg, states, steps) :: Safe(states[|steps|])
  {
    if cfg.invalidates {
      forall states, steps | IsRun(cfg, states, steps) ensures Safe(states[|steps|]) {
        RunsAreSafe(cfg, states, steps);
      }
    } else {
      var states, steps := UnsafeRun(cfg, env, m, k, data);
    }
  }
}
