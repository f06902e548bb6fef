/**
  The start of the modules (framework/src/fwk_module.c): all are initialised, then bound in two rounds, then started.
  While a module or element runs one of its functions it may ask any module for an API any number of times; the gate of
  `fwk_module_bind` decides what is handed out.
*/
module Lifecycle {
  import opened FwkStatus
  import opened FwkEvent

  datatype ModuleState = Uninitialized | Initialized | Bound | Started

  datatype Stage = Initializing | Binding | Starting

  /**
    What the framework knows of a module: its elements, each with a number of sub-elements, its APIs, and which optional
    functions it has.
  */
  datatype Desc = Desc(elements: seq<nat>, apis: nat, hasPostInit: bool, hasBind: bool, hasStart: bool)

  /** A request for API number `api` of module `mod`, addressed to `target`. */
  datatype Ask = Ask(target: Entity, mod: nat, api: nat)

  /** What has happened: a function was called, or an API was handed out. */
  datatype Record =
    | Init(id: Entity)
    | PostInit(mod: nat)
    | Bind(id: Entity, round: nat)
    | Start(id: Entity)
    | Granted(requester: Entity, ask: Ask)

  /** What the function called as the n-th record does: what it asks for, and the status it returns. */
  type Behaviour = nat -> (seq<Ask>, int)

  /** What a module answers to the request that would become the n-th record: a status, and whether an API is set. */
  type Server = (nat, Ask) -> (int, bool)

  predicate IsEntity(descs: seq<Desc>, e: Entity) {
    match e
    case Module(m) => m < |descs|
    case Element(m, k) => m < |descs| && k < |descs[m].elements|
    case SubElement(m, k, i) => m < |descs| && k < |descs[m].elements| && i < descs[m].elements[k]
    case NoEntity => false
  }

  /** An existing API of the module of an existing target. */
  predicate ValidAsk(descs: seq<Desc>, ask: Ask) {
    && IsEntity(descs, ask.target) && ask.mod < |descs| && ask.api < descs[ask.mod].apis && ask.target.mod == ask.mod
  }

  /** Every initialisation function of the module has been called. */
  ghost predicate Ready(descs: seq<Desc>, log: seq<Record>, m: nat)
    requires m < |descs|
  {
    && Init(Module(m)) in log
    && (forall e: nat :: e < |descs[m].elements| ==> Init(Element(m, e)) in log)
    && (descs[m].hasPostInit ==> PostInit(m) in log)
  }

  /** An API is handed out only by a module that was ready before. */
  ghost predicate Gated(descs: seq<Desc>, log: seq<Record>) {
    forall i {:trigger log[i]} :: 0 <= i < |log| && log[i].Granted? ==>
      log[i].ask.mod < |descs| && Ready(descs, log[..i], log[i].ask.mod)
  }

  /** Initialisation, the two rounds of binding, and starting. */
  function Phase(r: Record): nat {
    match r
    case Init(_) => 0
    case PostInit(_) => 0
    case Bind(_, round) => 1 + round
    case Start(_) => 3
    case Granted(_, _) => 0
  }

  /** The functions were called phase by phase, up to phase `k`. */
  ghost predicate Phased(log: seq<Record>, k: nat) {
    && (forall i {:trigger log[i]} :: 0 <= i < |log| && !log[i].Granted? ==> Phase(log[i]) <= k)
    && (forall i, j {:trigger log[i], log[j]} :: 0 <= i < j < |log| && !log[i].Granted? && !log[j].Granted? ==>
          Phase(log[i]) <= Phase(log[j]))
  }

  lemma ReadyStays(descs: seq<Desc>, log: seq<Record>, r: Record, m: nat)
    requires m < |descs| && Ready(descs, log, m)
    ensures Ready(descs, log + [r], m)
  {
  }

  lemma PhasedAppend(log: seq<Record>, r: Record, k: nat)
    requires Phased(log, k) && (!r.Granted? ==> Phase(r) == k)
    ensures Phased(log + [r], k)
  {
  }

  lemma GatedAppend(descs: seq<Desc>, log: seq<Record>, r: Record)
    requires Gated(descs, log) && (r.Granted? ==> r.ask.mod < |descs| && Ready(descs, log, r.ask.mod))
    ensures Gated(descs, log + [r])
  {
    forall i | 0 <= i < |log + [r]| && (log + [r])[i].Granted?
      ensures (log + [r])[i].ask.mod < |descs| && Ready(descs, (log + [r])[..i], (log + [r])[i].ask.mod)
    {
      if i < |log| {
        assert (log + [r])[..i] == log[..i];
      } else {
        assert (log + [r])[..i] == log;
      }
    }
  }

  // --------------------------------------------------------------------------------------- which functions are called

  /** The function calls among the records. */
  ghost function Calls(log: seq<Record>): seq<Record> {
    if log == [] then []
    else Calls(log[..|log| - 1]) + if log[|log| - 1].Granted? then [] else [log[|log| - 1]]
  }

  lemma CallsNext(log: seq<Record>, r: Record)
    ensures Calls(log + [r]) == Calls(log) + if r.Granted? then [] else [r]
  {
    assert (log + [r])[..|log|] == log;
  }

  lemma {:induction false} CallsAppend(log: seq<Record>, more: seq<Record>)
    ensures Calls(log + more) == Calls(log) + Calls(more)
    decreases |more|
  {
    if more == [] {
      assert log + more == log;
    } else {
      var n := |more| - 1;
      CallsAppend(log, more[..n]);
      assert log + more == (log + more[..n]) + [more[n]];
      CallsNext(log + more[..n], more[n]);
    }
  }

  lemma {:induction false} CallsAre(log: seq<Record>, r: Record)
    ensures r in Calls(log) <==> r in log && !r.Granted?
  {
    if log == [] {
    } else {
      CallsAre(log[..|log| - 1], r);
      assert log == log[..|log| - 1] + [log[|log| - 1]];
    }
  }

  /** The function of a module or element in a phase. */
  function CallIn(phase: nat, id: Entity): Record {
    if phase == 0 then Init(id) else if phase < 3 then Bind(id, phase - 1) else Start(id)
  }

  function ElementCalls(phase: nat, m: nat, n: nat): (r: seq<Record>)
    ensures |r| == n && forall e :: 0 <= e < n ==> r[e] == CallIn(phase, Element(m, e))
  {
    if n == 0 then [] else ElementCalls(phase, m, n - 1) + [CallIn(phase, Element(m, n - 1))]
  }

  /** The calls of one module in a phase: its own, those of its elements, and at last that after initialisation. */
  function ModuleCalls(d: Desc, phase: nat, m: nat): seq<Record> {
    if (1 <= phase < 3 && !d.hasBind) || (phase == 3 && !d.hasStart) then []
    else
      [CallIn(phase, Module(m))] + ElementCalls(phase, m, |d.elements|) +
      if phase == 0 && d.hasPostInit then [PostInit(m)] else []
  }

  function PhaseCalls(descs: seq<Desc>, phase: nat, n: nat): seq<Record>
    requires n <= |descs|
  {
    if n == 0 then [] else PhaseCalls(descs, phase, n - 1) + ModuleCalls(descs[n - 1], phase, n - 1)
  }

  function Schedule(descs: seq<Desc>, phases: nat): seq<Record> {
    if phases == 0 then [] else Schedule(descs, phases - 1) + PhaseCalls(descs, phases - 1, |descs|)
  }

  // ------------------------------------------------------------------------------------ what a complete start calls

  predicate IsModuleOrElement(descs: seq<Desc>, id: Entity) {
    (id.Module? && id.mod < |descs|) || (id.Element? && id.mod < |descs| && id.elt < |descs[id.mod].elements|)
  }

  /** A function that a complete start calls. */
  predicate Planned(descs: seq<Desc>, r: Record) {
    match r
    case Init(id) => IsModuleOrElement(descs, id)
    case PostInit(m) => m < |descs| && descs[m].hasPostInit
    case Bind(id, round) => IsModuleOrElement(descs, id) && descs[id.mod].hasBind && round < 2
    case Start(id) => IsModuleOrElement(descs, id) && descs[id.mod].hasStart
    case Granted(_, _) => false
  }

  /** Phase, module, and place within the module: the module first, then its elements in order. */
  datatype Key = Key(phase: int, mod: int, place: int)

  function PlaceOf(id: Entity): Key {
    match id
    case Module(m) => Key(0, m, 0)
    case Element(m, e) => Key(0, m, e + 1)
    case SubElement(m, _, _) => Key(0, m, 0)
    case NoEntity => Key(0, 0, 0)
  }

  function KeyOf(descs: seq<Desc>, r: Record): Key {
    match r
    case Init(id) => PlaceOf(id)
    case PostInit(m) => Key(0, m, if m < |descs| then |descs[m].elements| + 1 else 0)
    case Bind(id, round) => PlaceOf(id).(phase := 1 + round)
    case Start(id) => PlaceOf(id).(phase := 3)
    case Granted(_, _) => Key(0, 0, 0)
  }

  predicate Earlier(a: Key, b: Key) {
    a.phase < b.phase || (a.phase == b.phase && (a.mod < b.mod || (a.mod == b.mod && a.place < b.place)))
  }

  /** Phase by phase, within it module by module, and within that its elements in order; none twice. */
  ghost predicate InOrder(descs: seq<Desc>, calls: seq<Record>) {
    forall i, j :: 0 <= i < j < |calls| ==> Earlier(KeyOf(descs, calls[i]), KeyOf(descs, calls[j]))
  }

  lemma {:induction false} OrderedAppend(descs: seq<Desc>, a: seq<Record>, b: seq<Record>)
    requires InOrder(descs, a) && InOrder(descs, b)
    requires forall i, j :: 0 <= i < |a| && 0 <= j < |b| ==> Earlier(KeyOf(descs, a[i]), KeyOf(descs, b[j]))
    ensures InOrder(descs, a + b)
  {
  }

  /** The calls are those of module `m` in a phase. */
  ghost predicate OfModule(descs: seq<Desc>, calls: seq<Record>, phase: nat, m: nat) {
    && InOrder(descs, calls)
    && (forall i :: 0 <= i < |calls| ==> KeyOf(descs, calls[i]).phase == phase && KeyOf(descs, calls[i]).mod == m)
    && forall r :: r in calls <==> Planned(descs, r) && KeyOf(descs, r).phase == phase && KeyOf(descs, r).mod == m
  }

  /** The calls are those of the modules below `n` in a phase. */
  ghost predicate OfModulesBelow(descs: seq<Desc>, calls: seq<Record>, phase: nat, n: nat) {
    && InOrder(descs, calls)
    && (forall i :: 0 <= i < |calls| ==> KeyOf(descs, calls[i]).phase == phase && KeyOf(descs, calls[i]).mod < n)
    && forall r :: r in calls <==> Planned(descs, r) && KeyOf(descs, r).phase == phase && KeyOf(descs, r).mod < n
  }

  /** The calls are those of the phases below `n`. */
  ghost predicate OfPhasesBelow(descs: seq<Desc>, calls: seq<Record>, n: nat) {
    && InOrder(descs, calls)
    && (forall i :: 0 <= i < |calls| ==> KeyOf(descs, calls[i]).phase < n)
    && forall r :: r in calls <==> Planned(descs, r) && KeyOf(descs, r).phase < n
  }

  lemma ModulePlanned(descs: seq<Desc>, phase: nat, m: nat)
    requires m < |descs| && phase < 4
    ensures OfModule(descs, ModuleCalls(descs[m], phase, m), phase, m)
  {
    var calls := ModuleCalls(descs[m], phase, m);
    ModuleInOrder(descs, phase, m);
    forall r
      ensures r in calls <==> Planned(descs, r) && KeyOf(descs, r).phase == phase && KeyOf(descs, r).mod == m
    {
      PlannedInModule(descs, phase, m, r);
    }
  }

  lemma ModuleInOrder(descs: seq<Desc>, phase: nat, m: nat)
    requires m < |descs| && phase < 4
    ensures var calls := ModuleCalls(descs[m], phase, m);
      && (forall i :: 0 <= i < |calls| ==> KeyOf(descs, calls[i]) == Key(phase, m, i))
      && InOrder(descs, calls)
  {
  }

  lemma PlannedInModule(descs: seq<Desc>, phase: nat, m: nat, r: Record)
    requires m < |descs| && phase < 4
    ensures r in ModuleCalls(descs[m], phase, m) <==>
      Planned(descs, r) && KeyOf(descs, r).phase == phase && KeyOf(descs, r).mod == m
  {
    var own, elements := [CallIn(phase, Module(m))], ElementCalls(phase, m, |descs[m].elements|);
    if Planned(descs, r) && KeyOf(descs, r).phase == phase && KeyOf(descs, r).mod == m {
      if r.PostInit? {
      } else if r.id.Module? {
        assert r == own[0];
      } else {
        assert r == elements[r.id.elt];
      }
    }
  }

  lemma PhasePlannedNext(descs: seq<Desc>, a: seq<Record>, b: seq<Record>, phase: nat, n: nat)
    requires OfModulesBelow(descs, a, phase, n) && OfModule(descs, b, phase, n)
    ensures OfModulesBelow(descs, a + b, phase, n + 1)
  {
    hide Planned, KeyOf;
    OrderedAppend(descs, a, b);
  }

  lemma {:induction false} PhasePlanned(descs: seq<Desc>, phase: nat, n: nat)
    requires n <= |descs| && phase < 4
    ensures OfModulesBelow(descs, PhaseCalls(descs, phase, n), phase, n)
    decreases n
  {
    if n == 0 {
      assert forall r :: Planned(descs, r) ==> KeyOf(descs, r).mod >= 0;
    } else {
      hide ModuleCalls, OfModule, OfModulesBelow;
      PhasePlanned(descs, phase, n - 1);
      ModulePlanned(descs, phase, n - 1);
      PhasePlannedNext(descs, PhaseCalls(descs, phase, n - 1), ModuleCalls(descs[n - 1], phase, n - 1), phase, n - 1);
    }
  }

  lemma SchedulePlannedNext(descs: seq<Desc>, a: seq<Record>, b: seq<Record>, n: nat)
    requires OfPhasesBelow(descs, a, n) && OfModulesBelow(descs, b, n, |descs|)
    ensures OfPhasesBelow(descs, a + b, n + 1)
  {
    assert forall r :: Planned(descs, r) ==> KeyOf(descs, r).mod < |descs|;
    hide Planned, KeyOf;
    OrderedAppend(descs, a, b);
  }

  /** The schedule calls exactly the planned functions, each once and in order. */
  lemma {:induction false} SchedulePlanned(descs: seq<Desc>, phases: nat)
    requires phases <= 4
    ensures OfPhasesBelow(descs, Schedule(descs, phases), phases)
    decreases phases
  {
    if phases == 0 {
      assert forall r :: Planned(descs, r) ==> KeyOf(descs, r).phase >= 0;
    } else {
      hide PhaseCalls, OfPhasesBelow, OfModulesBelow;
      SchedulePlanned(descs, phases - 1);
      PhasePlanned(descs, phases - 1, |descs|);
      SchedulePlannedNext(descs, Schedule(descs, phases - 1), PhaseCalls(descs, phases - 1, |descs|), phases - 1);
    }
  }

  // ------------------------------------------------------------------------------------------- how far a start got

  /** From `before` to `after` the first calls of `plan` were added, and all of them if it went well. */
  predicate Made(before: seq<Record>, after: seq<Record>, plan: seq<Record>, ok: bool) {
    before <= after <= before + plan && (ok ==> after == before + plan)
  }

  lemma {:induction false} MadeMore(before: seq<Record>, mid: seq<Record>, after: seq<Record>, plan: seq<Record>,
      more: seq<Record>, ok: bool)
    requires Made(before, mid, plan, true) && Made(mid, after, more, ok)
    ensures Made(before, after, plan + more, ok)
  {
    assert before + plan + more == before + (plan + more);
  }

  lemma {:induction false} MadeLess(before: seq<Record>, after: seq<Record>, plan: seq<Record>, more: seq<Record>)
    requires Made(before, after, plan, false)
    ensures Made(before, after, plan + more, false)
  {
    assert before + plan + more == before + (plan + more);
  }

  /** Every function called from record `n` on succeeded. */
  predicate Succeeded(behaviour: Behaviour, log: seq<Record>, n: nat) {
    forall i :: n <= i < |log| && !log[i].Granted? ==> behaviour(i).1 == SUCCESS
  }

  /** A function called from record `n` on returned the status. */
  ghost predicate Returned(behaviour: Behaviour, log: seq<Record>, n: nat, status: int) {
    exists i :: n <= i < |log| && !log[i].Granted? && behaviour(i).1 == status
  }

  /** From log `a` to log `b` functions of the plan were called in order, all of them if and only if none failed. */
  ghost predicate Followed(behaviour: Behaviour, a: seq<Record>, b: seq<Record>, plan: seq<Record>, status: int) {
    && a <= b && Made(Calls(a), Calls(b), plan, status == SUCCESS)
    && (status == SUCCESS <==> Succeeded(behaviour, b, |a|))
    && (status != SUCCESS ==> Returned(behaviour, b, |a|, status))
  }

  lemma FollowedNothing(behaviour: Behaviour, a: seq<Record>)
    ensures Followed(behaviour, a, a, [], SUCCESS)
  {
  }

  lemma {:induction false} FollowedOne(behaviour: Behaviour, a: seq<Record>, b: seq<Record>, r: Record)
    requires a + [r] <= b && !r.Granted? && Calls(b) == Calls(a) + [r]
    requires forall k :: |a| < k < |b| ==> b[k].Granted?
    ensures Followed(behaviour, a, b, [r], behaviour(|a|).1)
  {
    hide Calls;
    assert b[|a|] == r;
    assert Calls(a) <= Calls(b);
  }

  lemma {:induction false} FollowedMore(behaviour: Behaviour, a: seq<Record>, mid: seq<Record>, b: seq<Record>,
      plan: seq<Record>, more: seq<Record>, status: int)
    requires Followed(behaviour, a, mid, plan, SUCCESS) && Followed(behaviour, mid, b, more, status)
    ensures Followed(behaviour, a, b, plan + more, status)
  {
    MadeMore(Calls(a), Calls(mid), Calls(b), plan, more, status == SUCCESS);
    assert forall i :: |a| <= i < |mid| ==> b[i] == mid[i];
    assert Succeeded(behaviour, b, |a|) ==> Succeeded(behaviour, b, |mid|);
  }

  /** Where a run of functions ended at a failure, no more of a longer plan were called. */
  lemma {:induction false} FollowedLess(behaviour: Behaviour, a: seq<Record>, b: seq<Record>, plan: seq<Record>,
      more: seq<Record>, status: int)
    requires Followed(behaviour, a, b, plan, status) && status != SUCCESS
    ensures Followed(behaviour, a, b, plan + more, status)
  {
    MadeLess(Calls(a), Calls(b), plan, more);
  }

  /** The module or element in whose name APIs are requested after the records so far. */
  ghost function NamedBy(log: seq<Record>): Entity {
    if log == [] then NoEntity
    else
      match log[|log| - 1]
      case Init(Element(m, e)) => Element(m, e)
      case Bind(id, _) => id
      case _ => NamedBy(log[..|log| - 1])
  }

  /** Every API was handed out in the name of the element initialised, or the module or element bound, last. */
  ghost predicate Named(log: seq<Record>) {
    forall i {:trigger log[i]} :: 0 <= i < |log| && log[i].Granted? ==> log[i].requester == NamedBy(log[..i])
  }

  lemma {:induction false} NamedAppend(log: seq<Record>, r: Record)
    requires Named(log) && (r.Granted? ==> r.requester == NamedBy(log))
    ensures Named(log + [r])
    ensures NamedBy(log + [r]) ==
      if r.Bind? || (r.Init? && r.id.Element?) then r.id else NamedBy(log)
  {
    assert (log + [r])[..|log|] == log;
    forall i | 0 <= i < |log + [r]| && (log + [r])[i].Granted?
      ensures (log + [r])[i].requester == NamedBy((log + [r])[..i])
    {
      if i < |log| {
        assert (log + [r])[..i] == log[..i];
      }
    }
  }

  class ModuleCtx {
    const descs: seq<Desc>
    const behaviour: Behaviour
    const server: Server
    var state: seq<ModuleState>
    var stage: Stage
    var bindId: Entity
    var initialized: bool
    var log: seq<Record>
    /** The phase that the framework is in. */
    ghost var phase: nat

    ghost predicate Valid()
      reads this
    {
      && |state| == |descs|
      && Gated(descs, log) && Phased(log, phase) && Named(log) && bindId == NamedBy(log)
      && (forall m {:trigger state[m]} {:trigger Ready(descs, log, m)} ::
            0 <= m < |state| && (stage != Initializing || state[m] != Uninitialized) ==> Ready(descs, log, m))
    }

    constructor (descs: seq<Desc>, behaviour: Behaviour, server: Server)
      ensures Valid() && this.descs == descs && log == [] && !initialized && stage == Initializing && phase == 0
      ensures forall m :: 0 <= m < |state| ==> state[m] == Uninitialized
    {
      this.descs, this.behaviour, this.server := descs, behaviour, server;
      state, stage, bindId := seq(|descs|, _ => Uninitialized), Initializing, NoEntity;
      initialized, log, phase := false, [], 0;
    }

    /** A record of what happens; `bindId` was set right before the function of an element, or any bind function. */
    method Note(r: Record)
      requires Valid() && (r.Granted? ==> r.ask.mod < |descs| && Ready(descs, log, r.ask.mod) && r.requester == bindId)
      requires !r.Granted? ==> Phase(r) == phase
      modifies `log, `bindId
      ensures Valid() && log == old(log) + [r] && (r.Granted? ==> bindId == old(bindId))
    {
      NamedAppend(log, r);
      PhasedAppend(log, r, phase);
      hide Gated, Named, NamedBy, Ready, Phased;
      GatedAppend(descs, log, r);
      forall m | 0 <= m < |state| && (stage != Initializing || state[m] != Uninitialized)
        ensures Ready(descs, log + [r], m)
      {
        ReadyStays(descs, log, r, m);
      }
      log := log + [r];
      bindId := if r.Bind? || (r.Init? && r.id.Element?) then r.id else bindId;
    }

    /** The gate: while binding, or while initialising for a module that is already initialised. */
    predicate Open(ask: Ask)
      requires ask.mod < |state|
      reads this
    {
      stage == Binding || (stage == Initializing && state[ask.mod] == Initialized)
    }

    /** The status of a request: invalid, not now, or what the module answers. */
    predicate Decided(n: nat, ask: Ask, status: int)
      requires |state| == |descs|
      reads this
    {
      var answer := server(n, ask);
      if !(IsEntity(descs, ask.target) && ask.target.mod == ask.mod < |descs| && ask.api < descs[ask.mod].apis) then
        status == E_PARAM
      else if stage == Starting || (stage == Initializing && state[ask.mod] != Initialized) then
        status == E_STATE
      else
        status == if answer == (SUCCESS, false) then E_HANDLER else answer.0
    }

    /**
      `fwk_module_bind`: an API is handed out exactly for a valid request that passes the gate, when the module then
      answers with success and an API.
    */
    method BindApi(ask: Ask) returns (status: int)
      requires Valid()
      modifies `log, `bindId
      ensures Valid()
      ensures !ValidAsk(descs, ask) ==> status == E_PARAM
      ensures ValidAsk(descs, ask) ==>
        status ==
          if !Open(ask) then E_STATE
          else if server(|old(log)|, ask).0 != SUCCESS then server(|old(log)|, ask).0
          else if server(|old(log)|, ask).1 then SUCCESS else E_HANDLER
      ensures Decided(|old(log)|, ask, status)
      ensures log == if status == SUCCESS then old(log) + [Granted(bindId, ask)] else old(log)
      ensures bindId == old(bindId)
    {
      if !ValidAsk(descs, ask) {
        return E_PARAM;
      }
      if (stage != Initializing || state[ask.mod] != Initialized) && stage != Binding {
        return E_STATE;
      }
      var answer := server(|log|, ask);
      status := answer.0;
      if status != SUCCESS {
        return;
      }
      if !answer.1 {
        return E_HANDLER;
      }
      Note(Granted(bindId, ask));
    }

    /** A function of a module or element is called and does what it does. */
    method Call(r: Record) returns (status: int)
      requires Valid() && !r.Granted? && Phase(r) == phase
      modifies `log, `bindId
      ensures Valid() && r in log && old(log) <= log
      ensures status == behaviour(|old(log)|).1 && Followed(behaviour, old(log), log, [r], status)
    {
      hide Followed, Calls, Decided, Gated, Named, NamedBy, Ready, Phased;
      var does := behaviour(|log|);
      CallsNext(log, r);
      Note(r);
      for i := 0 to |does.0|
        invariant Valid() && r in log && old(log) + [r] <= log && Calls(log) == Calls(old(log)) + [r]
        invariant forall k :: |old(log)| < k < |log| ==> log[k].Granted?
      {
        CallsNext(log, Granted(bindId, does.0[i]));
        var _ := BindApi(does.0[i]);
      }
      FollowedOne(behaviour, old(log), log, r);
      status := does.1;
    }

    /** A run of functions that was to go on with the next element, and with the other ones after it. */
    lemma NextElement(a: seq<Record>, mid: seq<Record>, b: seq<Record>, k: nat, m: nat, e: nat, status: int)
      requires m < |descs| && e < |descs[m].elements|
      requires Followed(behaviour, a, mid, ElementCalls(k, m, e), SUCCESS)
      requires Followed(behaviour, mid, b, [CallIn(k, Element(m, e))], status)
      ensures Followed(behaviour, a, b, ElementCalls(k, m, e + 1), status)
      ensures status != SUCCESS ==> Followed(behaviour, a, b, ElementCalls(k, m, |descs[m].elements|), status)
    {
      hide Followed;
      var all := ElementCalls(k, m, |descs[m].elements|);
      FollowedMore(behaviour, a, mid, b, ElementCalls(k, m, e), [CallIn(k, Element(m, e))], status);
      if status != SUCCESS {
        FollowedLess(behaviour, a, b, ElementCalls(k, m, e + 1), all[e + 1..], status);
        assert ElementCalls(k, m, e + 1) + all[e + 1..] == all;
      }
    }

    /** The elements of a module are initialised in order, up to the first whose function fails. */
    method InitElements(m: nat) returns (status: int)
      requires Valid() && m < |descs| && phase == 0
      modifies `log, `bindId
      ensures Valid() && Followed(behaviour, old(log), log, ElementCalls(0, m, |descs[m].elements|), status)
      ensures status == SUCCESS ==> forall e: nat :: e < |descs[m].elements| ==> Init(Element(m, e)) in log
    {
      FollowedNothing(behaviour, log);
      hide Followed;
      for e := 0 to |descs[m].elements|
        invariant Valid() && Followed(behaviour, old(log), log, ElementCalls(0, m, e), SUCCESS)
        invariant forall k: nat :: k < e ==> Init(Element(m, k)) in log
      {
        ghost var mid := log;
        status := Call(Init(Element(m, e)));
        NextElement(old(log), mid, log, 0, m, e, status);
        if status != SUCCESS {
          return;
        }
      }
      status := SUCCESS;
    }

    /** `fwk_module_init_module`; the first function that fails ends it. */
    method InitModule(m: nat) returns (status: int)
      requires Valid() && m < |descs| && phase == 0
      modifies `log, `bindId, `state
      ensures Valid() && Followed(behaviour, old(log), log, ModuleCalls(descs[m], 0, m), status) && old(log) <= log
      ensures status == SUCCESS ==> Ready(descs, log, m) && state == old(state)[m := Initialized]
      ensures status != SUCCESS ==> state == old(state)
    {
      hide Gated, Named, NamedBy;
      var own, elements := [Init(Module(m))], ElementCalls(0, m, |descs[m].elements|);
      ghost var post := if descs[m].hasPostInit then [PostInit(m)] else [];
      assert ModuleCalls(descs[m], 0, m) == own + elements + post == own + (elements + post);
      status := Call(Init(Module(m)));
      ghost var first := log;
      if status != SUCCESS {
        FollowedLess(behaviour, old(log), log, own, elements + post, status);
        return;
      }
      status := InitElements(m);
      ghost var second := log;
      FollowedMore(behaviour, old(log), first, log, own, elements, status);
      if status != SUCCESS {
        FollowedLess(behaviour, old(log), log, own + elements, post, status);
        return;
      }
      if descs[m].hasPostInit {
        status := Call(PostInit(m));
        FollowedMore(behaviour, old(log), second, log, own + elements, post, status);
        if status != SUCCESS {
          return;
        }
      }
      state := state[m := Initialized];
    }

    /** `fwk_module_bind_module`: a module without a bind function counts as bound, and so do its elements. */
    method BindModule(m: nat, round: nat) returns (status: int)
      requires Valid() && m < |descs| && phase == 1 + round && round < 2 && stage == Binding
      modifies `log, `bindId, `state
      ensures Valid() && Followed(behaviour, old(log), log, ModuleCalls(descs[m], 1 + round, m), status)
      ensures status == SUCCESS && descs[m].hasBind ==>
        Bind(Module(m), round) in log && forall e: nat :: e < |descs[m].elements| ==> Bind(Element(m, e), round) in log
    {
      if !descs[m].hasBind {
        FollowedNothing(behaviour, log);
        state := state[m := Bound];
        return SUCCESS;
      }
      ghost var own, elements := [Bind(Module(m), round)], ElementCalls(1 + round, m, |descs[m].elements|);
      assert ModuleCalls(descs[m], 1 + round, m) == own + elements;
      status := Call(Bind(Module(m), round));
      ghost var first := log;
      if status != SUCCESS {
        FollowedLess(behaviour, old(log), log, own, elements, status);
        return;
      }
      if round == 1 {
        state := state[m := Bound];
      }
      status := BindElements(m, round);
      FollowedMore(behaviour, old(log), first, log, own, elements, status);
    }

    method BindElements(m: nat, round: nat) returns (status: int)
      requires Valid() && m < |descs| && phase == 1 + round && round < 2 && stage == Binding
      modifies `log, `bindId
      ensures Valid() && Followed(behaviour, old(log), log, ElementCalls(1 + round, m, |descs[m].elements|), status)
      ensures old(log) <= log
      ensures status == SUCCESS ==> forall e: nat :: e < |descs[m].elements| ==> Bind(Element(m, e), round) in log
    {
      FollowedNothing(behaviour, log);
      hide Followed;
      for e := 0 to |descs[m].elements|
        invariant Valid() && Followed(behaviour, old(log), log, ElementCalls(1 + round, m, e), SUCCESS)
        invariant old(log) <= log && forall k: nat :: k < e ==> Bind(Element(m, k), round) in log
      {
        ghost var mid := log;
        status := Call(Bind(Element(m, e), round));
        NextElement(old(log), mid, log, 1 + round, m, e, status);
        if status != SUCCESS {
          return;
        }
      }
      status := SUCCESS;
    }

    /** `fwk_module_start_module`. */
    method StartModule(m: nat) returns (status: int)
      requires Valid() && m < |descs| && phase == 3 && stage == Starting
      modifies `log, `bindId, `state
      ensures Valid() && Followed(behaviour, old(log), log, ModuleCalls(descs[m], 3, m), status)
      ensures status == SUCCESS ==> state == old(state)[m := Started]
    {
      hide Gated, Named, NamedBy;
      ghost var own := if descs[m].hasStart then [Start(Module(m))] else [];
      ghost var elements := if descs[m].hasStart then ElementCalls(3, m, |descs[m].elements|) else [];
      assert ModuleCalls(descs[m], 3, m) == own + elements;
      FollowedNothing(behaviour, log);
      if descs[m].hasStart {
        status := Call(Start(Module(m)));
        if status != SUCCESS {
          FollowedLess(behaviour, old(log), log, own, elements, status);
          return;
        }
      }
      state := state[m := Started];
      ghost var first := log;
      status := StartElements(m);
      FollowedMore(behaviour, old(log), first, log, own, elements, status);
    }

    /** The loop over the elements. */
    method StartElements(m: nat) returns (status: int)
      requires Valid() && m < |descs| && phase == 3 && stage == Starting
      modifies `log, `bindId
      ensures Valid() && Followed(behaviour, old(log), log,
        if descs[m].hasStart then ElementCalls(3, m, |descs[m].elements|) else [], status)
    {
      FollowedNothing(behaviour, log);
      hide Followed;
      for e := 0 to |descs[m].elements|
        invariant Valid()
        invariant Followed(behaviour, old(log), log, if descs[m].hasStart then ElementCalls(3, m, e) else [], SUCCESS)
      {
        if descs[m].hasStart {
          ghost var mid := log;
          status := Call(Start(Element(m, e)));
          NextElement(old(log), mid, log, 3, m, e, status);
          if status != SUCCESS {
            return;
          }
        }
      }
      status := SUCCESS;
    }

    /** A phase that was to go on with the next module, and with the other ones after it. */
    lemma NextModule(a: seq<Record>, mid: seq<Record>, b: seq<Record>, k: nat, m: nat, status: int)
      requires m < |descs| && Followed(behaviour, a, mid, PhaseCalls(descs, k, m), SUCCESS)
      requires Followed(behaviour, mid, b, ModuleCalls(descs[m], k, m), status)
      ensures Followed(behaviour, a, b, PhaseCalls(descs, k, m + 1), status)
      ensures status != SUCCESS ==> Followed(behaviour, a, b, PhaseCalls(descs, k, |descs|), status)
    {
      hide Followed, ModuleCalls, Gated, Named, NamedBy;
      FollowedMore(behaviour, a, mid, b, PhaseCalls(descs, k, m), ModuleCalls(descs[m], k, m), status);
      if status != SUCCESS {
        var rest := PhaseGrows(k, m + 1, |descs|);
        FollowedLess(behaviour, a, b, PhaseCalls(descs, k, m + 1), rest, status);
      }
    }

    lemma {:induction false} PhaseGrows(k: nat, m: nat, n: nat) returns (rest: seq<Record>)
      requires m <= n <= |descs|
      ensures PhaseCalls(descs, k, n) == PhaseCalls(descs, k, m) + rest
      decreases n
    {
      hide ModuleCalls;
      if m == n {
        rest := [];
      } else {
        rest := PhaseGrows(k, m, n - 1);
        rest := rest + ModuleCalls(descs[n - 1], k, n - 1);
      }
    }

    /** All modules are initialised. */
    method InitModules() returns (status: int)
      requires Valid() && phase == 0
      modifies `log, `bindId, `state
      ensures Valid() && Followed(behaviour, old(log), log, PhaseCalls(descs, 0, |descs|), status)
      ensures status == SUCCESS ==> forall m :: 0 <= m < |descs| ==> Ready(descs, log, m)
    {
      FollowedNothing(behaviour, log);
      hide Followed, ModuleCalls, Gated, Named, NamedBy;
      for m := 0 to |descs|
        invariant Valid() && Followed(behaviour, old(log), log, PhaseCalls(descs, 0, m), SUCCESS)
        invariant forall k {:trigger state[k]} :: 0 <= k < m ==> state[k] != Uninitialized
      {
        ghost var mid := log;
        status := InitModule(m);
        NextModule(old(log), mid, log, 0, m, status);
        if status != SUCCESS {
          return;
        }
      }
      status := SUCCESS;
    }

    /** One round of binding. */
    method BindModules(round: nat) returns (status: int)
      requires Valid() && phase == 1 + round && round < 2 && stage == Binding
      modifies `log, `bindId, `state
      ensures Valid() && Followed(behaviour, old(log), log, PhaseCalls(descs, 1 + round, |descs|), status)
    {
      FollowedNothing(behaviour, log);
      hide Followed, ModuleCalls, Gated, Named, NamedBy;
      for m := 0 to |descs|
        invariant Valid() && Followed(behaviour, old(log), log, PhaseCalls(descs, 1 + round, m), SUCCESS)
      {
        ghost var mid := log;
        status := BindModule(m, round);
        NextModule(old(log), mid, log, 1 + round, m, status);
        if status != SUCCESS {
          return;
        }
      }
      status := SUCCESS;
    }

    method StartModules() returns (status: int)
      requires Valid() && phase == 3 && stage == Starting
      modifies `log, `bindId, `state
      ensures Valid() && Followed(behaviour, old(log), log, PhaseCalls(descs, 3, |descs|), status)
      ensures status == SUCCESS ==> forall m :: 0 <= m < |state| ==> state[m] == Started
    {
      FollowedNothing(behaviour, log);
      hide Followed, ModuleCalls, Gated, Named, NamedBy;
      for m := 0 to |descs|
        invariant Valid() && Followed(behaviour, old(log), log, PhaseCalls(descs, 3, m), SUCCESS)
        invariant forall k :: 0 <= k < m ==> state[k] == Started
      {
        ghost var mid := log;
        status := StartModule(m);
        NextModule(old(log), mid, log, 3, m, status);
        if status != SUCCESS {
          return;
        }
      }
      status := SUCCESS;
    }

    /** A start that was to go on with phase `k`, and with the others after it. */
    lemma NextPhase(a: seq<Record>, mid: seq<Record>, b: seq<Record>, k: nat, status: int)
      requires k < 4 && Followed(behaviour, a, mid, Schedule(descs, k), SUCCESS)
      requires Followed(behaviour, mid, b, PhaseCalls(descs, k, |descs|), status)
      ensures Followed(behaviour, a, b, Schedule(descs, k + 1), status)
      ensures status != SUCCESS ==> Followed(behaviour, a, b, Schedule(descs, 4), status)
    {
      hide Followed, PhaseCalls;
      FollowedMore(behaviour, a, mid, b, Schedule(descs, k), PhaseCalls(descs, k, |descs|), status);
      if status != SUCCESS {
        var rest := ScheduleGrows(k + 1, 4);
        FollowedLess(behaviour, a, b, Schedule(descs, k + 1), rest, status);
      }
    }

    lemma {:induction false} ScheduleGrows(m: nat, n: nat) returns (rest: seq<Record>)
      requires m <= n
      ensures Schedule(descs, n) == Schedule(descs, m) + rest
      decreases n
    {
      hide PhaseCalls;
      if m == n {
        rest := [];
      } else {
        rest := ScheduleGrows(m, n - 1);
        rest := rest + PhaseCalls(descs, n - 1, |descs|);
      }
    }

    /** What a start that has come to its end has called. */
    lemma Ended(a: seq<Record>, b: seq<Record>, status: int)
      requires Followed(behaviour, a, b, Schedule(descs, 4), status)
      ensures a <= b && Calls(b) <= Calls(a) + Schedule(descs, 4)
      ensures status == SUCCESS <==> Succeeded(behaviour, b, |a|)
      ensures status != SUCCESS ==> Returned(behaviour, b, |a|, status)
    {
    }

    /** The part of the log that a complete start added. */
    lemma {:induction false} Completed(a: seq<Record>, b: seq<Record>)
      requires Followed(behaviour, a, b, Schedule(descs, 4), SUCCESS)
      ensures a <= b && Complete(b[|a|..])
    {
      hide Schedule, InOrder;
      var added := b[|a|..];
      assert b == a + added;
      CallsAppend(a, added);
      assert (Calls(a) + Calls(added))[|Calls(a)|..] == Calls(added);
      assert (Calls(a) + Schedule(descs, 4))[|Calls(a)|..] == Schedule(descs, 4);
      SchedulePlanned(descs, 4);
      forall r
        ensures r in added && !r.Granted? <==> Planned(descs, r)
      {
        CallsAre(added, r);
      }
    }

    /** Every function there is was called once, in order, and no other. */
    ghost predicate Complete(added: seq<Record>) {
      InOrder(descs, Calls(added)) && forall r :: r in added && !r.Granted? <==> Planned(descs, r)
    }

    /**
      `fwk_module_start`. Whatever the modules do, at the end, however it ends, APIs were handed out only by modules
      that were ready, and the functions were called phase by phase. It succeeds exactly when no function it called
      failed, and then it has called every function there is, each once and in order; otherwise it ended with the
      status of the one that failed, or trapped there during initialisation.
    */
    method StartAll() returns (status: int, trapped: bool)
      requires Valid() && (!initialized ==> phase == 0 && stage == Initializing)
      modifies this
      ensures Valid() && old(log) <= log
      ensures old(initialized) ==> status == E_STATE && log == old(log) && state == old(state)
      ensures !old(initialized) ==>
        && (status == SUCCESS <==> Succeeded(behaviour, log, |old(log)|)) && (trapped ==> status != SUCCESS)
        && (status != SUCCESS ==> Returned(behaviour, log, |old(log)|, status))
        && Calls(log) <= Calls(old(log)) + Schedule(descs, 4)
      ensures !old(initialized) && status == SUCCESS ==>
        && initialized && (forall m :: 0 <= m < |state| ==> state[m] == Started)
        && (forall m :: 0 <= m < |descs| ==> Ready(descs, log, m))
        && Complete(log[|old(log)|..])
    {
      hide Followed, Schedule, Complete, Succeeded, Returned, Calls;
      if initialized {
        return E_STATE, false;
      }
      status, trapped := RunPhases();
      Ended(old(log), log, status);
      if status == SUCCESS {
        Completed(old(log), log);
      }
    }

    /** The phases one after the other, up to the first function that fails. */
    method RunPhases() returns (status: int, trapped: bool)
      requires Valid() && !initialized && phase == 0 && stage == Initializing
      modifies this
      ensures Valid() && Followed(behaviour, old(log), log, Schedule(descs, 4), status)
      ensures trapped ==> status != SUCCESS
      ensures status == SUCCESS ==>
        && initialized && (forall m :: 0 <= m < |state| ==> state[m] == Started)
        && (forall m :: 0 <= m < |descs| ==> Ready(descs, log, m))
    {
      hide Followed, Schedule;
      trapped := false;
      status := InitPhase();
      if status != SUCCESS {
        return status, true;
      }
      status := BindRounds(old(log));
      if status == SUCCESS {
        status := StartPhase(old(log));
      }
    }

    method InitPhase() returns (status: int)
      requires Valid() && phase == 0 && stage == Initializing
      modifies `log, `bindId, `state
      ensures Valid() && Followed(behaviour, old(log), log, Schedule(descs, if status == SUCCESS then 1 else 4), status)
      ensures status == SUCCESS ==> forall m :: 0 <= m < |descs| ==> Ready(descs, log, m)
    {
      FollowedNothing(behaviour, log);
      assert Schedule(descs, 0) == [];
      hide Followed, Schedule;
      status := InitModules();
      NextPhase(old(log), old(log), log, 0, status);
    }

    /** The two rounds of binding of a start that began with log `a`. */
    method BindRounds(ghost a: seq<Record>) returns (status: int)
      requires Valid() && phase == 0 && Followed(behaviour, a, log, Schedule(descs, 1), SUCCESS)
      requires forall m :: 0 <= m < |descs| ==> Ready(descs, log, m)
      modifies `log, `bindId, `state, `phase, `stage
      ensures Valid() && stage == Binding && (status == SUCCESS ==> phase == 2)
      ensures Followed(behaviour, a, log, Schedule(descs, if status == SUCCESS then 3 else 4), status)
    {
      hide Followed;
      stage := Binding;
      for round := 0 to 2
        invariant Valid() && stage == Binding && phase == round
        invariant Followed(behaviour, a, log, Schedule(descs, 1 + round), SUCCESS)
      {
        phase := 1 + round;
        ghost var mid := log;
        status := BindModules(round);
        NextPhase(a, mid, log, 1 + round, status);
        if status != SUCCESS {
          return;
        }
      }
      status := SUCCESS;
    }

    /** The last phase of a start that began with log `a`. */
    method StartPhase(ghost a: seq<Record>) returns (status: int)
      requires Valid() && phase == 2 && stage == Binding && Followed(behaviour, a, log, Schedule(descs, 3), SUCCESS)
      modifies this
      ensures Valid() && Followed(behaviour, a, log, Schedule(descs, 4), status)
      ensures status == SUCCESS ==>
        && initialized && (forall m :: 0 <= m < |state| ==> state[m] == Started)
        && (forall m :: 0 <= m < |descs| ==> Ready(descs, log, m))
    {
      hide Followed, Schedule;
      stage, phase := Starting, 3;
      ghost var mid := log;
      status := StartModules();
      NextPhase(a, mid, log, 3, status);
      if status == SUCCESS {
        initialized := true;
      }
    }
  }
}
