/** DynamicQueueService: open queues, their definitions, and the configuration entries. */
module QueueRegistry {
  import opened Extremes
  import opened Options

  datatype QueueDefinition = QueueDefinition(
    name: string,
    enabled: bool,
    workers: Option<int>,
    concurrency: int,
    priority: Option<int>,
    urlPatterns: seq<string>)

  /** Partial<QueueDefinition>; a name in it is overridden by the queue's own. */
  datatype Patch = Patch(
    enabled: Option<bool>,
    workers: Option<int>,
    concurrency: Option<int>,
    priority: Option<int>,
    urlPatterns: Option<seq<string>>)

  function Merge(d: QueueDefinition, p: Patch): QueueDefinition {
    QueueDefinition(
      d.name,
      if p.enabled.Some? then p.enabled.value else d.enabled,
      if p.workers.Some? then p.workers else d.workers,
      if p.concurrency.Some? then p.concurrency.value else d.concurrency,
      if p.priority.Some? then p.priority else d.priority,
      if p.urlPatterns.Some? then p.urlPatterns.value else d.urlPatterns)
  }

  /** A field that the update has wins; any other stays, and so does the name. */
  lemma MergeIs(d: QueueDefinition, p: Patch)
    ensures var m := Merge(d, p);
      && m.name == d.name
      && (match p.enabled case Some(e) => m.enabled == e case None => m.enabled == d.enabled)
      && (match p.workers case Some(w) => m.workers == Some(w) case None => m.workers == d.workers)
      && (match p.concurrency case Some(c) => m.concurrency == c case None => m.concurrency == d.concurrency)
      && (match p.priority case Some(i) => m.priority == Some(i) case None => m.priority == d.priority)
      && (match p.urlPatterns case Some(u) => m.urlPatterns == u case None => m.urlPatterns == d.urlPatterns)
  {
  }

  /** The map of open queues is modelled by the set of their names. */
  datatype Registry = Registry(queues: set<string>, definitions: map<string, QueueDefinition>, config: seq<QueueDefinition>)

  datatype Outcome = Done | NotFound | AlreadyExists | OpenFailed | CloseFailed | SaveFailed

  function EntriesNamed(config: seq<QueueDefinition>, name: string): seq<QueueDefinition> {
    if config == [] then []
    else (if config[0].name == name then [config[0]] else []) + EntriesNamed(config[1..], name)
  }

  function WithoutName(config: seq<QueueDefinition>, name: string): seq<QueueDefinition> {
    if config == [] then []
    else (if config[0].name == name then [] else [config[0]]) + WithoutName(config[1..], name)
  }

  /** The first entry of that name is replaced, if there is one. */
  function ReplaceFirst(config: seq<QueueDefinition>, name: string, d: QueueDefinition): seq<QueueDefinition> {
    if config == [] then []
    else if config[0].name == name then [d] + config[1..]
    else [config[0]] + ReplaceFirst(config[1..], name, d)
  }

  // ---------- The operations on values ----------

  function Open(r: Registry, d: QueueDefinition): Registry {
    Registry(r.queues + {d.name}, r.definitions[d.name := d], r.config + [d])
  }

  function Close(r: Registry, name: string): Registry {
    Registry(r.queues - {name}, r.definitions - {name}, WithoutName(r.config, name))
  }

  function Redefine(r: Registry, d: QueueDefinition): Registry {
    r.(definitions := r.definitions[d.name := d], config := ReplaceFirst(r.config, d.name, d))
  }

  /** Which of the external calls of an operation succeed; `records` is what an administration request saves after it
      has changed the workers. */
  datatype Luck = Luck(opens: bool, closes: bool, saves: bool, records: bool)

  function Create(r: Registry, d: QueueDefinition, luck: Luck): (Registry, Outcome) {
    if d.name in r.queues then (r, AlreadyExists)
    else if !luck.opens then (r, OpenFailed)
    else (Open(r, d), if luck.saves then Done else SaveFailed)
  }

  function Remove(r: Registry, name: string, luck: Luck): (Registry, Outcome) {
    if name !in r.queues then (r, NotFound)
    else if !luck.closes then (r, CloseFailed)
    else (Close(r, name), if luck.saves then Done else SaveFailed)
  }

  /** Removal, then creation under the merged definition: a queue that fails to reopen is lost. */
  function Update(r: Registry, name: string, p: Patch, luck: Luck): (Registry, Outcome) {
    if name !in r.definitions then (r, NotFound)
    else
      var d := Merge(r.definitions[name], p).(name := name);
      if name !in r.queues then (r, NotFound)
      else if !luck.closes then (r, CloseFailed)
      else if !luck.opens then (Close(r, name), OpenFailed)
      else (Open(Close(r, name), d), if luck.saves then Done else SaveFailed)
  }

  function SetWorkers(r: Registry, name: string, workers: real, luck: Luck): (Registry, Outcome) {
    if name !in r.definitions then (r, NotFound)
    else (Redefine(r, r.definitions[name].(name := name, workers := Some(Max(0, workers.Floor)))),
          if luck.saves then Done else SaveFailed)
  }

  function SetConcurrency(r: Registry, name: string, concurrency: real, luck: Luck): (Registry, Outcome) {
    if name !in r.definitions then (r, NotFound)
    else (Redefine(r, r.definitions[name].(name := name, concurrency := Max(1, concurrency.Floor))),
          if luck.saves then Done else SaveFailed)
  }

  function Initialized(config: seq<QueueDefinition>): Registry {
    Registry(EnabledNames(config), EnabledDefinitions(config), config)
  }

  function EnabledNames(config: seq<QueueDefinition>): set<string> {
    set i | 0 <= i < |config| && config[i].enabled :: config[i].name
  }

  function EnabledDefinitions(config: seq<QueueDefinition>): map<string, QueueDefinition> {
    if config == [] then map[]
    else
      var d := config[|config| - 1];
      var m := EnabledDefinitions(config[..|config| - 1]);
      if d.enabled then m[d.name := d] else m
  }

  // ---------- The service ----------

  class DynamicQueueService {
    var queues: set<string>
    var queueDefinitions: map<string, QueueDefinition>
    var configQueues: seq<QueueDefinition>

    ghost function Model(): Registry
      reads this
    {
      Registry(queues, queueDefinitions, configQueues)
    }

    constructor (config: seq<QueueDefinition>)
      ensures Model() == Registry({}, map[], config)
    {
      queues, queueDefinitions, configQueues := {}, map[], config;
    }

    /** initializeQueues, run once on a new service; the first queue that fails to open stops it. */
    method InitializeQueues(failing: set<string>) returns (read: nat)
      requires queues == {} && queueDefinitions == map[]
      modifies this
      ensures read <= |old(configQueues)|
      ensures forall i :: 0 <= i < read && old(configQueues)[i].enabled ==> old(configQueues)[i].name !in failing
      ensures read < |old(configQueues)| ==> old(configQueues)[read].enabled && old(configQueues)[read].name in failing
      ensures Model() == Initialized(old(configQueues)[..read]).(config := old(configQueues))
    {
      for i := 0 to |configQueues|
        invariant configQueues == old(configQueues)
        invariant queues == EnabledNames(configQueues[..i])
        invariant queueDefinitions == EnabledDefinitions(configQueues[..i])
        invariant forall k :: 0 <= k < i && configQueues[k].enabled ==> configQueues[k].name !in failing
      {
        var queueDef := configQueues[i];
        EnabledGrows(configQueues, i);
        if !queueDef.enabled {
          continue;
        }
        if queueDef.name in failing {
          return i;
        }
        queues := queues + {queueDef.name};
        queueDefinitions := queueDefinitions[queueDef.name := queueDef];
      }
      return |configQueues|;
    }

    method CreateQueue(queueDef: QueueDefinition, luck: Luck) returns (outcome: Outcome)
      modifies this
      ensures (Model(), outcome) == Create(old(Model()), queueDef, luck)
    {
      if queueDef.name in queues {
        return AlreadyExists;
      }
      if !luck.opens {
        return OpenFailed;
      }
      queues := queues + {queueDef.name};
      queueDefinitions := queueDefinitions[queueDef.name := queueDef];
      configQueues := configQueues + [queueDef];
      return if luck.saves then Done else SaveFailed;
    }

    method RemoveQueue(name: string, luck: Luck) returns (outcome: Outcome)
      modifies this
      ensures (Model(), outcome) == Remove(old(Model()), name, luck)
    {
      if name !in queues {
        return NotFound;
      }
      if !luck.closes {
        return CloseFailed;
      }
      queues := queues - {name};
      queueDefinitions := queueDefinitions - {name};
      configQueues := FilterOut(configQueues, name);
      return if luck.saves then Done else SaveFailed;
    }

    method UpdateQueue(name: string, patch: Patch, luck: Luck) returns (outcome: Outcome)
      modifies this
      ensures (Model(), outcome) == Update(old(Model()), name, patch, luck)
    {
      if name !in queueDefinitions {
        return NotFound;
      }
      var updatedDef := Merge(queueDefinitions[name], patch).(name := name);
      outcome := RemoveQueue(name, luck.(saves := true));
      if outcome != Done {
        return;
      }
      outcome := CreateQueue(updatedDef, luck.(saves := true));
      if outcome != Done {
        return;
      }
      return if luck.saves then Done else SaveFailed;
    }

    method SetQueueWorkers(name: string, workers: real, luck: Luck) returns (outcome: Outcome)
      modifies this
      ensures (Model(), outcome) == SetWorkers(old(Model()), name, workers, luck)
    {
      if name !in queueDefinitions {
        return NotFound;
      }
      var updated := queueDefinitions[name].(name := name, workers := Some(Max(0, workers.Floor)));
      queueDefinitions := queueDefinitions[name := updated];
      configQueues := AssignFirst(configQueues, name, updated);
      return if luck.saves then Done else SaveFailed;
    }

    method SetQueueConcurrency(name: string, concurrency: real, luck: Luck) returns (outcome: Outcome)
      modifies this
      ensures (Model(), outcome) == SetConcurrency(old(Model()), name, concurrency, luck)
    {
      if name !in queueDefinitions {
        return NotFound;
      }
      var updated := queueDefinitions[name].(name := name, concurrency := Max(1, concurrency.Floor));
      queueDefinitions := queueDefinitions[name := updated];
      configQueues := AssignFirst(configQueues, name, updated);
      return if luck.saves then Done else SaveFailed;
    }
  }

  /** filter by name. */
  method FilterOut(config: seq<QueueDefinition>, name: string) returns (kept: seq<QueueDefinition>)
    ensures kept == WithoutName(config, name)
  {
    kept := [];
    for i := 0 to |config|
      invariant kept + WithoutName(config[i..], name) == WithoutName(config, name)
    {
      if config[i].name != name {
        kept := kept + [config[i]];
      }
    }
  }

  /** findIndex, then assignment at that index. */
  method AssignFirst(config: seq<QueueDefinition>, name: string, d: QueueDefinition) returns (updated: seq<QueueDefinition>)
    ensures updated == ReplaceFirst(config, name, d)
  {
    hide ReplaceFirst;
    for i := 0 to |config|
      invariant forall k :: 0 <= k < i ==> config[k].name != name
    {
      if config[i].name == name {
        ReplacesFirstNamed(config, name, d, i);
        return config[i := d];
      }
    }
    ReplacesNone(config, name, d);
    return config;
  }

  lemma {:induction false} ReplacesFirstNamed(config: seq<QueueDefinition>, name: string, d: QueueDefinition, i: nat)
    requires i < |config| && config[i].name == name && forall k :: 0 <= k < i ==> config[k].name != name
    ensures ReplaceFirst(config, name, d) == config[i := d]
  {
    if i > 0 {
      ReplacesFirstNamed(config[1..], name, d, i - 1);
      assert config[i := d] == [config[0]] + config[1..][i - 1 := d];
    } else {
      assert config[0 := d] == [d] + config[1..];
    }
  }

  lemma {:induction false} ReplacesNone(config: seq<QueueDefinition>, name: string, d: QueueDefinition)
    requires forall k :: 0 <= k < |config| ==> config[k].name != name
    ensures ReplaceFirst(config, name, d) == config
  {
    if config != [] {
      ReplacesNone(config[1..], name, d);
    }
  }

  lemma EnabledGrows(config: seq<QueueDefinition>, i: nat)
    requires i < |config|
    ensures EnabledNames(config[..i + 1]) == EnabledNames(config[..i]) + (if config[i].enabled then {config[i].name} else {})
    ensures EnabledDefinitions(config[..i + 1])
      == if config[i].enabled then EnabledDefinitions(config[..i])[config[i].name := config[i]] else EnabledDefinitions(config[..i])
  {
    assert config[..i + 1][..i] == config[..i];
    assert config[..i + 1] == config[..i] + [config[i]];
    forall n ensures n in EnabledNames(config[..i + 1]) <==>
      n in EnabledNames(config[..i]) || (config[i].enabled && n == config[i].name)
    {
      if n in EnabledNames(config[..i]) {
        var k :| 0 <= k < i && config[..i][k].enabled && config[..i][k].name == n;
        assert config[..i + 1][k] == config[..i][k];
      }
      if config[i].enabled {
        assert config[..i + 1][i] == config[i];
      }
    }
  }

  /** Start-up opens the enabled names, each under its last enabled entry. */
  lemma {:induction false} InitializedIs(config: seq<QueueDefinition>, name: string)
    ensures name in Initialized(config).queues <==> exists i :: 0 <= i < |config| && config[i].enabled && config[i].name == name
    ensures name in Initialized(config).definitions <==> exists i :: 0 <= i < |config| && config[i].enabled && config[i].name == name
    ensures name in Initialized(config).definitions ==>
      exists i: nat :: IsLastEnabled(config, name, i) && Initialized(config).definitions[name] == config[i]
    ensures Initialized(config).config == config
    decreases |config|
  {
    if config != [] {
      var n := |config| - 1;
      InitializedIs(config[..n], name);
      assert config == config[..n] + [config[n]];
      if config[n].enabled && config[n].name == name {
        assert IsLastEnabled(config, name, n);
      } else if i: nat :| IsLastEnabled(config[..n], name, i) {
        assert IsLastEnabled(config, name, i);
      }
    }
  }

  ghost predicate IsLastEnabled(config: seq<QueueDefinition>, name: string, i: nat) {
    && i < |config| && config[i].enabled && config[i].name == name
    && forall k :: i < k < |config| ==> !(config[k].enabled && config[k].name == name)
  }

  lemma {:induction false} WithoutNameConcat(a: seq<QueueDefinition>, b: seq<QueueDefinition>, name: string)
    ensures WithoutName(a + b, name) == WithoutName(a, name) + WithoutName(b, name)
  {
    if a == [] {
      assert a + b == b;
    } else {
      var first := if a[0].name == name then [] else [a[0]];
      calc {
        WithoutName(a + b, name);
        { assert (a + b)[0] == a[0] && (a + b)[1..] == a[1..] + b; }
        first + WithoutName(a[1..] + b, name);
        { WithoutNameConcat(a[1..], b, name); }
        first + (WithoutName(a[1..], name) + WithoutName(b, name));
        (first + WithoutName(a[1..], name)) + WithoutName(b, name);
        WithoutName(a, name) + WithoutName(b, name);
      }
    }
  }

  /** What goes are the entries of that name, one by one, and nothing else moves. */
  lemma FilterIs(config: seq<QueueDefinition>, d: QueueDefinition, name: string)
    ensures WithoutName([], name) == []
    ensures WithoutName(config + [d], name) == if d.name == name then WithoutName(config, name) else WithoutName(config, name) + [d]
  {
    WithoutNameConcat(config, [d], name);
    assert WithoutName([d], name) == if d.name == name then [] else [d];
  }

  // ---------- Agreement of the three structures ----------

  /** Open queues and definitions have the same names, and each has exactly one configuration entry, equal
      to its definition. */
  ghost predicate Agreement(r: Registry) {
    && r.queues == r.definitions.Keys
    && forall n :: n in r.queues ==> r.definitions[n].name == n && EntriesNamed(r.config, n) == [r.definitions[n]]
  }

  lemma {:induction false} EntriesConcat(a: seq<QueueDefinition>, b: seq<QueueDefinition>, n: string)
    ensures EntriesNamed(a + b, n) == EntriesNamed(a, n) + EntriesNamed(b, n)
  {
    if a == [] {
      assert a + b == b;
    } else {
      var first := if a[0].name == n then [a[0]] else [];
      calc {
        EntriesNamed(a + b, n);
        { assert (a + b)[0] == a[0] && (a + b)[1..] == a[1..] + b; }
        first + EntriesNamed(a[1..] + b, n);
        { EntriesConcat(a[1..], b, n); }
        first + (EntriesNamed(a[1..], n) + EntriesNamed(b, n));
        (first + EntriesNamed(a[1..], n)) + EntriesNamed(b, n);
        EntriesNamed(a, n) + EntriesNamed(b, n);
      }
    }
  }

  lemma EntriesAppend(config: seq<QueueDefinition>, d: QueueDefinition, n: string)
    ensures EntriesNamed(config + [d], n) == EntriesNamed(config, n) + if d.name == n then [d] else []
  {
    EntriesConcat(config, [d], n);
    assert EntriesNamed([d], n) == if d.name == n then [d] else [];
  }

  lemma {:induction false} EntriesWithout(config: seq<QueueDefinition>, gone: string, n: string)
    ensures EntriesNamed(WithoutName(config, gone), n) == if n == gone then [] else EntriesNamed(config, n)
  {
    if config != [] {
      EntriesWithout(config[1..], gone, n);
      if config[0].name != gone {
        assert WithoutName(config, gone)[1..] == WithoutName(config[1..], gone);
      } else {
        assert WithoutName(config, gone) == WithoutName(config[1..], gone);
      }
    }
  }

  lemma {:induction false} EntriesReplace(config: seq<QueueDefinition>, d: QueueDefinition, n: string)
    ensures n != d.name ==> EntriesNamed(ReplaceFirst(config, d.name, d), n) == EntriesNamed(config, n)
    ensures n == d.name && |EntriesNamed(config, n)| == 1 ==> EntriesNamed(ReplaceFirst(config, d.name, d), n) == [d]
  {
    if config != [] {
      EntriesReplace(config[1..], d, n);
      if config[0].name == d.name {
        assert ReplaceFirst(config, d.name, d)[1..] == config[1..];
        if n == d.name && |EntriesNamed(config, n)| == 1 {
          assert EntriesNamed(config[1..], n) == [];
        }
      } else {
        assert ReplaceFirst(config, d.name, d)[1..] == ReplaceFirst(config[1..], d.name, d);
      }
    }
  }

  /** Creating a queue keeps the agreement exactly when no configuration entry has its name yet. */
  lemma CreateAgreesExactlyWhen(r: Registry, d: QueueDefinition, luck: Luck)
    requires Agreement(r) && d.name !in r.queues && luck.opens
    ensures Agreement(Create(r, d, luck).0) <==> EntriesNamed(r.config, d.name) == []
  {
    var t := Open(r, d);
    forall n ensures EntriesNamed(t.config, n) == EntriesNamed(r.config, n) + if d.name == n then [d] else [] {
      EntriesAppend(r.config, d, n);
    }
    if EntriesNamed(r.config, d.name) != [] {
      assert |EntriesNamed(t.config, d.name)| >= 2 && d.name in t.queues;
    }
  }

  /** It does happen: a disabled entry, then a queue created under its name. */
  lemma DisabledNameBreaksAgreement(entry: QueueDefinition, d: QueueDefinition, luck: Luck)
    requires !entry.enabled && d.name == entry.name && luck.opens
    ensures var r := Initialized([entry]);
      Agreement(r) && d.name !in r.queues && !Agreement(Create(r, d, luck).0)
  {
    var r := Initialized([entry]);
    var config := [entry];
    assert config[..0] == [];
    EnabledGrows(config, 0);
    assert config[..1] == config;
    assert r.queues == {} && r.definitions == map[];
    assert EntriesNamed([entry], d.name) == [entry];
    CreateAgreesExactlyWhen(r, d, luck);
  }

  lemma CloseAgrees(r: Registry, name: string)
    requires Agreement(r)
    ensures Agreement(Close(r, name)) && EntriesNamed(Close(r, name).config, name) == []
  {
    forall n ensures EntriesNamed(WithoutName(r.config, name), n) == if n == name then [] else EntriesNamed(r.config, n) {
      EntriesWithout(r.config, name, n);
    }
  }

  lemma RedefineAgrees(r: Registry, d: QueueDefinition)
    requires Agreement(r) && d.name in r.queues
    ensures Agreement(Redefine(r, d))
  {
    forall n | n in r.queues
      ensures EntriesNamed(Redefine(r, d).config, n) == [Redefine(r, d).definitions[n]]
    {
      EntriesReplace(r.config, d, n);
    }
  }

  /** Configured names that no open queue uses. */
  ghost predicate DormantWithin(r: Registry, dormant: set<string>) {
    forall n :: EntriesNamed(r.config, n) != [] ==> n in r.queues || n in dormant
  }

  datatype Step =
    | CreateStep(d: QueueDefinition)
    | RemoveStep(name: string)
    | UpdateStep(name: string, patch: Patch)
    | SetWorkersStep(name: string, workers: real)
    | SetConcurrencyStep(name: string, concurrency: real)

  datatype Event = Event(step: Step, luck: Luck)

  function Next(r: Registry, e: Event): Registry {
    match e.step
    case CreateStep(d) => Create(r, d, e.luck).0
    case RemoveStep(n) => Remove(r, n, e.luck).0
    case UpdateStep(n, p) => Update(r, n, p, e.luck).0
    case SetWorkersStep(n, w) => SetWorkers(r, n, w, e.luck).0
    case SetConcurrencyStep(n, c) => SetConcurrency(r, n, c, e.luck).0
  }

  function After(r: Registry, events: seq<Event>): Registry {
    if events == [] then r else Next(After(r, events[..|events| - 1]), events[|events| - 1])
  }

  /** What an operation reports. */
  function Report(r: Registry, e: Event): Outcome {
    match e.step
    case CreateStep(d) => Create(r, d, e.luck).1
    case RemoveStep(n) => Remove(r, n, e.luck).1
    case UpdateStep(n, p) => Update(r, n, p, e.luck).1
    case SetWorkersStep(n, w) => SetWorkers(r, n, w, e.luck).1
    case SetConcurrencyStep(n, c) => SetConcurrency(r, n, c, e.luck).1
  }

  /** The name an operation is about. */
  function Target(e: Event): string {
    match e.step
    case CreateStep(d) => d.name
    case RemoveStep(n) => n
    case UpdateStep(n, _) => n
    case SetWorkersStep(n, _) => n
    case SetConcurrencyStep(n, _) => n
  }

  /** Why an operation stops before it changes anything, in the order in which that is found out. */
  lemma ReportIs(r: Registry, e: Event)
    ensures var n := Target(e); var missing := n !in r.definitions; var closed := n !in r.queues;
      Report(r, e) ==
        match e.step
        case CreateStep(_) =>
          if !closed then AlreadyExists else if !e.luck.opens then OpenFailed else if e.luck.saves then Done else SaveFailed
        case RemoveStep(_) =>
          if closed then NotFound else if !e.luck.closes then CloseFailed else if e.luck.saves then Done else SaveFailed
        case UpdateStep(_, _) =>
          if missing || closed then NotFound else if !e.luck.closes then CloseFailed else if !e.luck.opens then OpenFailed
          else if e.luck.saves then Done else SaveFailed
        case _ => if missing then NotFound else if e.luck.saves then Done else SaveFailed
  {
  }

  /** No operation touches another queue, and one that stops early touches nothing; only an update that cannot open its
      queue again has closed it by then. */
  lemma OthersUntouched(r: Registry, e: Event, other: string)
    requires other != Target(e) || Report(r, e) in {NotFound, AlreadyExists, CloseFailed} ||
             (Report(r, e) == OpenFailed && e.step.CreateStep?)
    ensures var t := Next(r, e);
      && (other in t.queues <==> other in r.queues)
      && (other in t.definitions <==> other in r.definitions)
      && (other in r.definitions ==> t.definitions[other] == r.definitions[other])
      && EntriesNamed(t.config, other) == EntriesNamed(r.config, other)
  {
    hide EntriesNamed, WithoutName, ReplaceFirst, Merge;
    match e.step
    case CreateStep(d) => EntriesAppend(r.config, d, other);
    case RemoveStep(n) => EntriesWithout(r.config, n, other);
    case UpdateStep(n, p) =>
      EntriesWithout(r.config, n, other);
      if n in r.definitions {
        EntriesAppend(WithoutName(r.config, n), Merge(r.definitions[n], p).(name := n), other);
      }
    case SetWorkersStep(n, w) =>
      if n in r.definitions {
        EntriesReplace(r.config, r.definitions[n].(name := n, workers := Some(Max(0, w.Floor))), other);
      }
    case SetConcurrencyStep(n, c) =>
      if n in r.definitions {
        EntriesReplace(r.config, r.definitions[n].(name := n, concurrency := Max(1, c.Floor)), other);
      }
  }

  /** What an operation that goes through makes of its queue, saved or not: creation and update leave it open under the
      new definition, which is also the last entry; an update that cannot open it leaves nothing, like removal; the two
      settings change one field. */
  lemma TargetChanges(r: Registry, e: Event)
    requires Report(r, e) in {Done, SaveFailed} || (Report(r, e) == OpenFailed && e.step.UpdateStep?)
    ensures var t, n := Next(r, e), Target(e);
      match e.step
      case CreateStep(d) =>
        n in t.queues && n in t.definitions && t.definitions[n] == d && EntriesNamed(t.config, n) == EntriesNamed(r.config, n) + [d]
      case RemoveStep(_) => n !in t.queues && n !in t.definitions && EntriesNamed(t.config, n) == []
      case UpdateStep(_, p) =>
        if e.luck.opens then
          var d := Merge(r.definitions[n], p).(name := n);
          n in t.queues && n in t.definitions && t.definitions[n] == d && EntriesNamed(t.config, n) == [d]
          && t.config == WithoutName(r.config, n) + [d]
        else n !in t.queues && n !in t.definitions && EntriesNamed(t.config, n) == []
      case SetWorkersStep(_, w) =>
        && t.queues == r.queues && n in t.definitions && t.definitions[n].workers.Some?
        && IsFloored(t.definitions[n].workers.value, w, 0)
        && t.definitions[n] == r.definitions[n].(name := n, workers := t.definitions[n].workers)
        && (|EntriesNamed(r.config, n)| == 1 ==> EntriesNamed(t.config, n) == [t.definitions[n]])
      case SetConcurrencyStep(_, c) =>
        && t.queues == r.queues && n in t.definitions && IsFloored(t.definitions[n].concurrency, c, 1)
        && t.definitions[n] == r.definitions[n].(name := n, concurrency := t.definitions[n].concurrency)
        && (|EntriesNamed(r.config, n)| == 1 ==> EntriesNamed(t.config, n) == [t.definitions[n]])
  {
    hide EntriesNamed, WithoutName, ReplaceFirst, Merge;
    var n := Target(e);
    match e.step
    case CreateStep(d) => EntriesAppend(r.config, d, n);
    case RemoveStep(_) => EntriesWithout(r.config, n, n);
    case UpdateStep(_, p) =>
      EntriesWithout(r.config, n, n);
      EntriesAppend(WithoutName(r.config, n), Merge(r.definitions[n], p).(name := n), n);
    case SetWorkersStep(_, w) => EntriesReplace(r.config, r.definitions[n].(name := n, workers := Some(Max(0, w.Floor))), n);
    case SetConcurrencyStep(_, c) => EntriesReplace(r.config, r.definitions[n].(name := n, concurrency := Max(1, c.Floor)), n);
  }

  /** The greatest whole number up to x, but at least `least`. */
  ghost predicate IsFloored(k: int, x: real, least: int) {
    if x < least as real then k == least else k as real <= x < k as real + 1.0
  }

  lemma OpenAgrees(r: Registry, d: QueueDefinition, dormant: set<string>)
    requires Agreement(r) && EntriesNamed(r.config, d.name) == [] && DormantWithin(r, dormant)
    ensures Agreement(Open(r, d)) && DormantWithin(Open(r, d), dormant)
  {
    forall n ensures EntriesNamed(Open(r, d).config, n) == EntriesNamed(r.config, n) + if d.name == n then [d] else [] {
      EntriesAppend(r.config, d, n);
    }
  }

  lemma CloseDormant(r: Registry, name: string, dormant: set<string>)
    requires DormantWithin(r, dormant)
    ensures DormantWithin(Close(r, name), dormant)
  {
    forall n | EntriesNamed(Close(r, name).config, n) != [] ensures n in r.queues - {name} || n in dormant {
      EntriesWithout(r.config, name, n);
    }
  }

  lemma RedefineDormant(r: Registry, d: QueueDefinition, dormant: set<string>)
    requires DormantWithin(r, dormant) && d.name in r.queues
    ensures DormantWithin(Redefine(r, d), dormant)
  {
    forall n | EntriesNamed(Redefine(r, d).config, n) != [] ensures n in r.queues || n in dormant {
      EntriesReplace(r.config, d, n);
    }
  }

  lemma NextAgrees(r: Registry, e: Event, dormant: set<string>)
    requires Agreement(r) && DormantWithin(r, dormant)
    requires e.step.CreateStep? ==> e.step.d.name !in dormant
    ensures Agreement(Next(r, e)) && DormantWithin(Next(r, e), dormant)
  {
    hide Agreement, DormantWithin, Open, Close, Redefine;
    match e.step
    case CreateStep(d) =>
      if d.name !in r.queues {
        Unconfigured(r, d.name, dormant);
        OpenAgrees(r, d, dormant);
      }
    case RemoveStep(n) =>
      CloseAgrees(r, n);
      CloseDormant(r, n, dormant);
    case UpdateStep(n, p) =>
      CloseAgrees(r, n);
      CloseDormant(r, n, dormant);
      if n in r.definitions {
        OpenAgrees(Close(r, n), Merge(r.definitions[n], p).(name := n), dormant);
      }
    case SetWorkersStep(n, w) =>
      SameNames(r);
      if n in r.definitions {
        RedefineAgrees(r, r.definitions[n].(name := n, workers := Some(Max(0, w.Floor))));
        RedefineDormant(r, r.definitions[n].(name := n, workers := Some(Max(0, w.Floor))), dormant);
      }
    case SetConcurrencyStep(n, c) =>
      SameNames(r);
      if n in r.definitions {
        RedefineAgrees(r, r.definitions[n].(name := n, concurrency := Max(1, c.Floor)));
        RedefineDormant(r, r.definitions[n].(name := n, concurrency := Max(1, c.Floor)), dormant);
      }
  }

  lemma SameNames(r: Registry)
    requires Agreement(r)
    ensures r.queues == r.definitions.Keys
  {
  }

  lemma Unconfigured(r: Registry, name: string, dormant: set<string>)
    requires DormantWithin(r, dormant) && name !in r.queues && name !in dormant
    ensures EntriesNamed(r.config, name) == []
  {
  }

  /** From a configuration with unique names, no sequence of operations, successful or not, breaks the
      agreement, as long as no queue is created under the name of a disabled entry. */
  lemma {:induction false} RegistryAgreesInEveryRun(config: seq<QueueDefinition>, events: seq<Event>)
    requires UniqueNames(config)
    requires forall i :: 0 <= i < |events| && events[i].step.CreateStep? ==> events[i].step.d.name !in DisabledNames(config)
    ensures Agreement(After(Initialized(config), events))
    ensures DormantWithin(After(Initialized(config), events), DisabledNames(config))
    decreases |events|
  {
    if events == [] {
      InitialAgreement(config);
    } else {
      hide Agreement, DormantWithin, Next, Initialized;
      var n := |events| - 1;
      RegistryAgreesInEveryRun(config, events[..n]);
      NextAgrees(After(Initialized(config), events[..n]), events[n], DisabledNames(config));
    }
  }

  /** The step creates no queue under a name that the configuration already has. */
  predicate CreatesNew(r: Registry, e: Event) {
    e.step.CreateStep? ==> e.step.d.name in r.queues || !e.luck.opens || EntriesNamed(r.config, e.step.d.name) == []
  }

  /** A step keeps the agreement if and only if it creates no such queue. */
  lemma NextAgreesExactlyWhen(r: Registry, e: Event)
    requires Agreement(r)
    ensures Agreement(Next(r, e)) <==> CreatesNew(r, e)
  {
    hide Agreement, EntriesNamed, Open, Close, Redefine;
    match e.step
    case CreateStep(d) =>
      if d.name !in r.queues && e.luck.opens {
        CreateAgreesExactlyWhen(r, d, e.luck);
      }
    case RemoveStep(n) => CloseAgrees(r, n);
    case UpdateStep(n, p) =>
      CloseAgrees(r, n);
      if n in r.definitions {
        ReopenAgrees(Close(r, n), Merge(r.definitions[n], p).(name := n));
      }
    case SetWorkersStep(n, w) =>
      SameNames(r);
      if n in r.definitions {
        RedefineAgrees(r, r.definitions[n].(name := n, workers := Some(Max(0, w.Floor))));
      }
    case SetConcurrencyStep(n, c) =>
      SameNames(r);
      if n in r.definitions {
        RedefineAgrees(r, r.definitions[n].(name := n, concurrency := Max(1, c.Floor)));
      }
  }

  lemma ReopenAgrees(r: Registry, d: QueueDefinition)
    requires Agreement(r) && EntriesNamed(r.config, d.name) == []
    ensures Agreement(Open(r, d))
  {
    forall n ensures EntriesNamed(Open(r, d).config, n) == EntriesNamed(r.config, n) + if d.name == n then [d] else [] {
      EntriesAppend(r.config, d, n);
    }
  }

  ghost predicate AgreesAt(r: Registry, events: seq<Event>, i: nat)
    requires i <= |events|
  {
    Agreement(After(r, events[..i]))
  }

  predicate CreatesNewAt(r: Registry, events: seq<Event>, i: nat)
    requires i < |events|
  {
    CreatesNew(After(r, events[..i]), events[i])
  }

  lemma StepAgrees(r: Registry, events: seq<Event>, i: nat)
    requires i < |events| && AgreesAt(r, events, i)
    ensures AgreesAt(r, events, i + 1) <==> CreatesNewAt(r, events, i)
  {
    hide Agreement, CreatesNew, Next;
    assert events[..i + 1][..i] == events[..i];
    NextAgreesExactlyWhen(After(r, events[..i]), events[i]);
  }

  lemma {:induction false} NewStaysAgreed(r: Registry, events: seq<Event>, i: nat)
    requires i <= |events| && Agreement(r) && forall k :: 0 <= k < i ==> CreatesNewAt(r, events, k)
    ensures AgreesAt(r, events, i)
  {
    if i == 0 {
      assert events[..0] == [];
    } else {
      hide AgreesAt, CreatesNewAt;
      NewStaysAgreed(r, events, i - 1);
      StepAgrees(r, events, i - 1);
    }
  }

  /** From a configuration with unique names: the three structures agree all along a run of operations, successful or
      not, if and only if no queue is ever created under a name that the configuration has at that moment. */
  lemma RegistryAgreesExactlyWhen(config: seq<QueueDefinition>, events: seq<Event>)
    requires UniqueNames(config)
    ensures (forall i :: 0 <= i <= |events| ==> AgreesAt(Initialized(config), events, i)) <==>
      (forall i :: 0 <= i < |events| ==> CreatesNewAt(Initialized(config), events, i))
  {
    var r := Initialized(config);
    InitialAgreement(config);
    hide Initialized, Agreement, AgreesAt, CreatesNewAt;
    if forall i :: 0 <= i <= |events| ==> AgreesAt(r, events, i) {
      forall i | 0 <= i < |events| ensures CreatesNewAt(r, events, i) {
        assert AgreesAt(r, events, i) && AgreesAt(r, events, i + 1);
        StepAgrees(r, events, i);
      }
    }
    if forall i :: 0 <= i < |events| ==> CreatesNewAt(r, events, i) {
      forall i | 0 <= i <= |events| ensures AgreesAt(r, events, i) {
        NewStaysAgreed(r, events, i);
      }
    }
  }

  ghost predicate UniqueNames(config: seq<QueueDefinition>) {
    forall i, j :: 0 <= i < j < |config| ==> config[i].name != config[j].name
  }

  function DisabledNames(config: seq<QueueDefinition>): set<string> {
    set i | 0 <= i < |config| && !config[i].enabled :: config[i].name
  }

  lemma {:induction false} UniqueEntry(config: seq<QueueDefinition>, n: string)
    requires UniqueNames(config)
    ensures |EntriesNamed(config, n)| <= 1
    ensures forall i :: 0 <= i < |config| && config[i].name == n ==> EntriesNamed(config, n) == [config[i]]
    ensures EntriesNamed(config, n) != [] ==> exists i :: 0 <= i < |config| && config[i].name == n
  {
    if config != [] {
      UniqueEntry(config[1..], n);
      if EntriesNamed(config[1..], n) != [] {
        var i :| 0 <= i < |config[1..]| && config[1..][i].name == n;
        assert config[i + 1].name == n;
      }
      forall i | 0 <= i < |config| && config[i].name == n ensures EntriesNamed(config, n) == [config[i]] {
        if i > 0 {
          assert config[1..][i - 1] == config[i];
        }
      }
    }
  }

  lemma {:induction false} DefinitionsEnabled(config: seq<QueueDefinition>)
    ensures EnabledDefinitions(config).Keys == EnabledNames(config)
    ensures forall n :: n in EnabledDefinitions(config) ==>
      exists i :: 0 <= i < |config| && config[i].enabled && config[i].name == n && EnabledDefinitions(config)[n] == config[i]
    decreases |config|
  {
    if config == [] {
      assert EnabledNames(config) == {};
    } else {
      var k := |config| - 1;
      DefinitionsEnabled(config[..k]);
      EnabledGrows(config, k);
      assert config[..k + 1] == config;
      forall n | n in EnabledDefinitions(config)
        ensures exists i :: 0 <= i < |config| && config[i].enabled && config[i].name == n && EnabledDefinitions(config)[n] == config[i]
      {
        if config[k].enabled && n == config[k].name {
        } else {
          var i :| 0 <= i < k && config[..k][i].enabled && config[..k][i].name == n
            && EnabledDefinitions(config[..k])[n] == config[..k][i];
          assert config[i] == config[..k][i];
        }
      }
    }
  }

  lemma InitialAgreement(config: seq<QueueDefinition>)
    requires UniqueNames(config)
    ensures Agreement(Initialized(config)) && DormantWithin(Initialized(config), DisabledNames(config))
  {
    DefinitionsEnabled(config);
    forall n ensures EntriesNamed(config, n) != [] ==> n in EnabledNames(config) || n in DisabledNames(config) {
      UniqueEntry(config, n);
    }
    forall n | n in EnabledDefinitions(config)
      ensures EnabledDefinitions(config)[n].name == n && EntriesNamed(config, n) == [EnabledDefinitions(config)[n]]
    {
      UniqueEntry(config, n);
    }
  }
}
