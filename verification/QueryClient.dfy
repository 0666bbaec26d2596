/**
 * The loops of the client run-time, each a stretch of protocol steps. What the protocol takes apart at each `await` is
 * put together here as the client does it undisturbed.
 */
module QueryClient {
  import opened Optional
  import opened Json
  import opened ModelMeta
  import opened NestedWriteVisitor
  import opened QueryAnalyzer
  import Closure
  import opened Mutator
  import opened Invalidation
  import opened CacheProtocol

  /** Consecutive states of a run. */
  ghost predicate IsStretch(cfg: Config, states: seq<State>, steps: seq<Step>)
    requires ValidMeta(cfg.meta)
  {
    |states| == |steps| + 1 && forall i | 0 <= i < |steps| :: Next(cfg, states[i], steps[i], states[i + 1])
  }

  ghost function Last(states: seq<State>): State
    requires states != []
  {
    states[|states| - 1]
  }

  lemma Extend(cfg: Config, states: seq<State>, steps: seq<Step>, step: Step, t: State)
    requires ValidMeta(cfg.meta) && IsStretch(cfg, states, steps) && Next(cfg, Last(states), step, t)
    ensures IsStretch(cfg, states + [t], steps + [step])
  {
    var more, all := states + [t], steps + [step];
    forall i | 0 <= i < |all| ensures Next(cfg, more[i], all[i], more[i + 1]) {
      if i < |steps| {
        assert Next(cfg, states[i], steps[i], states[i + 1]);
      }
    }
  }

  /** The state while mutation `id` is in the given phase, beside others. */
  function During(cache: map<Key, Entry>, others: map<nat, Run>, id: nat, m: Mutation, p: Phase): State {
    State(cache, others[id := Run(m, p)])
  }

  lemma PhaseChanges(cache: map<Key, Entry>, others: map<nat, Run>, id: nat, m: Mutation, p: Phase, q: Phase)
    ensures SetPhase(During(cache, others, id, m, p), id, q) == During(cache, others, id, m, q)
  {
    assert others[id := Run(m, p)][id := Run(m, q)] == others[id := Run(m, q)];
  }

  class Client {
    const cfg: Config
    var cache: map<Key, Entry>

    constructor (cfg: Config, cache: map<Key, Entry>)
      ensures this.cfg == cfg && this.cache == cache
    {
      this.cfg, this.cache := cfg, cache;
    }

    /** `applyMutation` on an entry, which walks the payload anew; None where it throws. */
    method Apply(env: Env, m: Mutation, r: Reading) returns (d: Option<Option<Json>>)
      requires ValidMeta(cfg.meta)
      ensures d == if UpdateThrows(cfg, m, r) then None else Some(NewData(cfg, env, m, r))
    {
      if !Container(r.data) || !("find" <= r.key.op) {
        return Some(None);
      }
      var visitor := new Visitor(cfg.meta, MUTATOR_CALLBACKS);
      var threw := visitor.VisitAll(m.model, m.op, m.args);
      assert [] + OwnVisit(cfg.meta, m).events == OwnVisit(cfg.meta, m).events;
      if threw {
        return None;
      }
      return Some(ApplyMutation(env, cfg.meta, r.key.model, r.key.op, r.data, visitor.events));
    }

    /** `optimisticUpdate`, undisturbed: it reads and writes one entry after the other, until the payload throws. */
    method OptimisticUpdate(env: Env, id: nat, m: Mutation, keys: seq<Key>, ghost others: map<nat, Run>)
      returns (threw: bool, ghost states: seq<State>, ghost steps: seq<Step>)
      requires ValidMeta(cfg.meta) && forall k | k in keys :: k in cache
      modifies `cache
      ensures IsStretch(cfg, states, steps)
      ensures states[0] == During(old(cache), others, id, m, Updating(keys, None))
      ensures Last(states) == During(cache, others, id, m, if threw then Responded else Updating([], None))
    {
      threw, states, steps := false, [During(cache, others, id, m, Updating(keys, None))], [];
      var i := 0;
      assert keys[0..] == keys;
      while i < |keys|
        invariant 0 <= i <= |keys| && forall k | k in keys :: k in cache
        invariant IsStretch(cfg, states, steps) && states[0] == During(old(cache), others, id, m, Updating(keys, None))
        invariant Last(states) == During(cache, others, id, m, Updating(keys[i..], None))
      {
        var k := keys[i];
        assert k in keys && keys[i..][0] == k && keys[i..][1..] == keys[i + 1..];
        ghost var rest := keys[i + 1..];
        assert keys[i..] == [k] + rest;
        if Eligible(k, cache[k]) {
          var r := Reading(k, cache[k].data, cache[k].residue);
          states, steps := ReadStep(others, id, m, k, rest, states, steps);
          var d := Apply(env, m, r);
          states, steps := WriteStep(env, others, id, m, r, rest, states, steps);
          if d.None? {
            return true, states, steps;
          }
          if d.value.Some? {
            cache := cache[k := Entry(d.value.value, false, r.residue + {id}, false)];
          }
        } else {
          states, steps := ReadStep(others, id, m, k, rest, states, steps);
        }
        i := i + 1;
      }
      assert keys[i..] == [];
    }

    lemma ReadStep(
        others: map<nat, Run>, id: nat, m: Mutation, k: Key, rest: seq<Key>, states: seq<State>, steps: seq<Step>)
      returns (states': seq<State>, steps': seq<Step>)
      requires ValidMeta(cfg.meta) && IsStretch(cfg, states, steps) && k in cache
      requires Last(states) == During(cache, others, id, m, Updating([k] + rest, None))
      ensures IsStretch(cfg, states', steps') && states'[0] == states[0]
      ensures Last(states') == During(cache, others, id, m, Updating(rest,
        if Eligible(k, cache[k]) then Some(Reading(k, cache[k].data, cache[k].residue)) else None))
    {
      var reading := if Eligible(k, cache[k]) then Some(Reading(k, cache[k].data, cache[k].residue)) else None;
      var t := During(cache, others, id, m, Updating(rest, reading));
      PhaseChanges(cache, others, id, m, Updating([k] + rest, None), Updating(rest, reading));
      assert ([k] + rest)[1..] == rest;
      Extend(cfg, states, steps, Read(id), t);
      states', steps' := states + [t], steps + [Read(id)];
    }

    lemma WriteStep(
        env: Env, others: map<nat, Run>, id: nat, m: Mutation, r: Reading, rest: seq<Key>, states: seq<State>,
        steps: seq<Step>)
      returns (states': seq<State>, steps': seq<Step>)
      requires ValidMeta(cfg.meta) && IsStretch(cfg, states, steps)
      requires Last(states) == During(cache, others, id, m, Updating(rest, Some(r)))
      ensures IsStretch(cfg, states', steps') && states'[0] == states[0]
      ensures Last(states') ==
        if UpdateThrows(cfg, m, r) then During(cache, others, id, m, Responded)
        else
          During(Written(cache, id, r, NewData(cfg, env, m, r)), others, id, m, Updating(rest, None))
    {
      var p := Updating(rest, Some(r));
      var t := if UpdateThrows(cfg, m, r) then During(cache, others, id, m, Responded)
        else During(Written(cache, id, r, NewData(cfg, env, m, r)), others, id, m, Updating(rest, None));
      PhaseChanges(cache, others, id, m, p, Responded);
      PhaseChanges(cache, others, id, m, p, Updating(rest, None));
      Extend(cfg, states, steps, Write(id, env), t);
      states', steps' := states + [t], steps + [Write(id, env)];
    }

    /** `invalidate(getInvalidationPredicate(...))`; nothing happens if the payload throws. */
    method InvalidateQueries(m: Mutation, ghost rank: map<string, nat>)
      requires cfg.invalidates && RankedBases(cfg.meta, rank)
      modifies `cache
      ensures cache == Invalidate(cfg, m, old(cache))
    {
      var threw, mutated := WrittenModels(m, rank);
      if !threw {
        cache := Marked(mutated, cache);
      }
    }

    /** The models that the predicate looks for. */
    method WrittenModels(m: Mutation, ghost rank: map<string, nat>) returns (threw: bool, mutated: set<string>)
      requires RankedBases(cfg.meta, rank)
      ensures threw == FullVisit(cfg.meta, m).threw && (!threw ==> mutated == Mutated(cfg.meta, m))
    {
      var visitor := new Visitor(cfg.meta, ALL_CALLBACKS);
      threw := visitor.VisitAll(m.model, m.op, m.args);
      assert [] + FullVisit(cfg.meta, m).events == FullVisit(cfg.meta, m).events;
      var analyzer := new MutationAnalyzer(cfg.meta);
      analyzer.GetMutatedModels(m.model, visitor.events, rank);
      mutated := Closure.ToSet(analyzer.result);
    }

    function Marked(mutated: set<string>, entries: map<Key, Entry>): map<Key, Entry> {
      map k | k in entries ::
        if ShouldInvalidate(cfg.meta, mutated, k.model, k.args) then entries[k].(invalidated := true) else entries[k]
    }
  }

  function Written(cache: map<Key, Entry>, id: nat, r: Reading, d: Option<Json>): map<Key, Entry> {
    if d.None? then cache else cache[r.key := Entry(d.value, false, r.residue + {id}, false)]
  }
}
