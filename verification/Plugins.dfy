/** The plugin lifecycle of gateway-core-rust/src/plugin.rs. */
module Plugins {
  import opened Wrappers

  const CONTRACT_VERSION := 1

  /** A plugin as the manager sees it: its name, its contract and how its two lifecycle calls end. */
  datatype Plugin = Plugin(name: string, contractVersion: nat, initOk: bool, teardownOk: bool)

  datatype PluginConfig = PluginConfig(name: string, settings: string)

  datatype Error = DuplicateName(name: string) | BuildFailed(reason: string) | RegisterFailed(name: string)

  /** The lifecycle calls that plugins receive. */
  datatype Call = Init(name: string, ok: bool) | Teardown(name: string, ok: bool)

  class Journal {
    var calls: seq<Call>

    constructor ()
      ensures calls == []
    {
      calls := [];
    }
  }

  /** One teardown per plugin, in registration order; after a failing one the next is made all the same. */
  function Teardowns(plugins: seq<Plugin>): seq<Call> {
    seq(|plugins|, i requires 0 <= i < |plugins| => Teardown(plugins[i].name, plugins[i].teardownOk))
  }

  predicate Registrable(p: Plugin) {
    p.contractVersion == CONTRACT_VERSION && p.initOk
  }

  /** What `register` calls on a plugin. */
  function RegisterCalls(p: Plugin): seq<Call> {
    if p.contractVersion != CONTRACT_VERSION then [] else [Init(p.name, p.initOk)]
  }

  class PluginManager {
    var plugins: seq<Plugin>

    constructor ()
      ensures plugins == []
    {
      plugins := [];
    }

    /** Lines 181-195. */
    method Register(plugin: Plugin, journal: Journal) returns (ok: bool)
      modifies this, journal
      ensures ok == Registrable(plugin)
      ensures journal.calls == old(journal.calls) + RegisterCalls(plugin)
      ensures plugins == old(plugins) + if ok then [plugin] else []
    {
      if plugin.contractVersion != CONTRACT_VERSION {
        return false;
      }
      journal.calls := journal.calls + [Init(plugin.name, plugin.initOk)];
      if !plugin.initOk {
        return false;
      }
      plugins := plugins + [plugin];
      ok := true;
    }

    /** Lines 236-243, which are also the `Drop` of lines 246-250. */
    method RollbackLifecycle(journal: Journal)
      modifies this, journal
      ensures plugins == []
      ensures journal.calls == old(journal.calls) + Teardowns(old(plugins))
      ensures forall i | 0 <= i < |old(plugins)| ::
                journal.calls[|old(journal.calls)| + i] == Teardown(old(plugins[i]).name, old(plugins[i]).teardownOk)
    {
      for i := 0 to |plugins|
        invariant plugins == old(plugins)
        invariant journal.calls == old(journal.calls) + Teardowns(plugins)[..i]
      {
        journal.calls := journal.calls + [Teardown(plugins[i].name, plugins[i].teardownOk)];
      }
      assert Teardowns(plugins)[..|plugins|] == Teardowns(plugins);
      plugins := [];
    }
  }

  // --- from_config ---

  type Build = PluginConfig -> Result<Plugin, string>

  /** The names of the first `n` configurations. */
  function Names(configs: seq<PluginConfig>, n: nat): set<string>
    requires n <= |configs|
  {
    set i | 0 <= i < n :: configs[i].name
  }

  /** Where loading stands: what is registered, what was called, and the error if there is one. */
  datatype Loading = Loading(registered: seq<Plugin>, calls: seq<Call>, error: Option<Error>)

  function Abort(l: Loading, more: seq<Call>, error: Error): Loading {
    Loading([], l.calls + more + Teardowns(l.registered), Some(error))
  }

  function LoadOne(l: Loading, seen: set<string>, cfg: PluginConfig, build: Build): Loading {
    if cfg.name in seen then Abort(l, [], DuplicateName(cfg.name))
    else
      match build(cfg)
      case Err(reason) => Abort(l, [], BuildFailed(reason))
      case Ok(p) =>
        if !Registrable(p) then Abort(l, RegisterCalls(p), RegisterFailed(cfg.name))
        else Loading(l.registered + [p], l.calls + RegisterCalls(p), None)
  }

  function Load(configs: seq<PluginConfig>, build: Build, n: nat): Loading
    requires n <= |configs|
  {
    if n == 0 then Loading([], [], None)
    else
      var before := Load(configs, build, n - 1);
      if before.error.Some? then before
      else LoadOne(before, Names(configs, n - 1), configs[n - 1], build)
  }

  /** Once there is an error, loading has ended. */
  lemma {:induction false} LoadStops(configs: seq<PluginConfig>, build: Build, n: nat)
    requires n <= |configs| && Load(configs, build, n).error.Some?
    ensures Load(configs, build, |configs|) == Load(configs, build, n)
    decreases |configs| - n
  {
    if n < |configs| {
      LoadStops(configs, build, n + 1);
    }
  }

  /** The loop body. Every early return drops the manager; an explicit rollback leaves the drop nothing to do. */
  method LoadNext(
    manager: PluginManager, seen: set<string>, cfg: PluginConfig, build: Build, journal: Journal,
    ghost base: seq<Call>, ghost before: Loading)
    returns (error: Option<Error>)
    requires manager.plugins == before.registered && journal.calls == base + before.calls
    modifies manager, journal
    ensures var l := LoadOne(before, seen, cfg, build);
            && error == l.error && manager.plugins == l.registered && journal.calls == base + l.calls
  {
    if cfg.name in seen {
      manager.RollbackLifecycle(journal);
      manager.RollbackLifecycle(journal);
      return Some(DuplicateName(cfg.name));
    }
    var built := build(cfg);
    if built.Err? {
      manager.RollbackLifecycle(journal);
      return Some(BuildFailed(built.error));
    }
    var ok := manager.Register(built.value, journal);
    if !ok {
      manager.RollbackLifecycle(journal);
      manager.RollbackLifecycle(journal);
      return Some(RegisterFailed(cfg.name));
    }
    error := None;
  }

  /** Lines 161-179. */
  method FromConfig(configs: seq<PluginConfig>, build: Build, journal: Journal)
    returns (manager: PluginManager, error: Option<Error>)
    modifies journal
    ensures fresh(manager)
    ensures var l := Load(configs, build, |configs|);
            && manager.plugins == l.registered && error == l.error
            && journal.calls == old(journal.calls) + l.calls
  {
    manager := new PluginManager();
    var seen: set<string> := {};
    for n := 0 to |configs|
      invariant fresh(manager) && seen == Names(configs, n)
      invariant Load(configs, build, n).error.None? && manager.plugins == Load(configs, build, n).registered
      invariant journal.calls == old(journal.calls) + Load(configs, build, n).calls
    {
      error := LoadNext(manager, seen, configs[n], build, journal, old(journal.calls), Load(configs, build, n));
      if error.Some? {
        LoadStops(configs, build, n + 1);
        return;
      }
      seen := seen + {configs[n].name};
    }
    error := None;
  }

  // --- Accounting ---

  /** The plugins whose `init` succeeded, in order. */
  function Initialised(calls: seq<Call>): seq<string> {
    if calls == [] then []
    else
      Initialised(calls[..|calls| - 1])
      + match calls[|calls| - 1] case Init(name, true) => [name] case _ => []
  }

  /** The plugins torn down, in order. */
  function TornDown(calls: seq<Call>): seq<string> {
    if calls == [] then []
    else
      TornDown(calls[..|calls| - 1])
      + match calls[|calls| - 1] case Teardown(name, _) => [name] case _ => []
  }

  function PluginNames(plugins: seq<Plugin>): seq<string> {
    seq(|plugins|, i requires 0 <= i < |plugins| => plugins[i].name)
  }

  ghost predicate NoRepeats(names: seq<string>) {
    forall i, j | 0 <= i < j < |names| :: names[i] != names[j]
  }

  /** What one more call adds. */
  lemma {:induction false} CallAdds(calls: seq<Call>, call: Call)
    ensures TornDown(calls + [call]) == TornDown(calls) + match call case Teardown(name, _) => [name] case _ => []
    ensures Initialised(calls + [call]) == Initialised(calls) + match call case Init(name, true) => [name] case _ => []
  {
    assert (calls + [call])[..|calls|] == calls;
  }

  lemma {:induction false} TeardownsSplit(plugins: seq<Plugin>, n: nat)
    requires n + 1 == |plugins|
    ensures Teardowns(plugins) == Teardowns(plugins[..n]) + [Teardown(plugins[n].name, plugins[n].teardownOk)]
    ensures PluginNames(plugins) == PluginNames(plugins[..n]) + [plugins[n].name]
  {
  }

  lemma {:induction false} TeardownsAdd(calls: seq<Call>, plugins: seq<Plugin>)
    ensures TornDown(calls + Teardowns(plugins)) == TornDown(calls) + PluginNames(plugins)
    ensures Initialised(calls + Teardowns(plugins)) == Initialised(calls)
  {
    if plugins == [] {
      assert calls + Teardowns(plugins) == calls;
      assert TornDown(calls) + PluginNames(plugins) == TornDown(calls);
    } else {
      var n := |plugins| - 1;
      var last := Teardown(plugins[n].name, plugins[n].teardownOk);
      var before := calls + Teardowns(plugins[..n]);
      TeardownsAdd(calls, plugins[..n]);
      TeardownsSplit(plugins, n);
      CallAdds(before, last);
      assert calls + Teardowns(plugins) == before + [last];
      assert TornDown(calls) + PluginNames(plugins[..n]) + [plugins[n].name] == TornDown(calls) + PluginNames(plugins);
      assert Initialised(before) + [] == Initialised(before);
    }
  }

  lemma {:induction false} RegisterAdds(calls: seq<Call>, p: Plugin)
    ensures TornDown(calls + RegisterCalls(p)) == TornDown(calls)
    ensures Initialised(calls + RegisterCalls(p)) == Initialised(calls) + if Registrable(p) then [p.name] else []
  {
    if p.contractVersion == CONTRACT_VERSION {
      var all := calls + RegisterCalls(p);
      assert all[..|all| - 1] == calls;
      assert TornDown(all) == TornDown(calls) + [];
    } else {
      assert calls + RegisterCalls(p) == calls;
      assert Initialised(calls) + [] == Initialised(calls);
    }
  }

  /** `build` gives a plugin the name of its configuration, as line 270 does. */
  ghost predicate KeepsNames(configs: seq<PluginConfig>, build: Build) {
    forall cfg | cfg in configs && build(cfg).Ok? :: build(cfg).value.name == cfg.name
  }

  function NameList(configs: seq<PluginConfig>, n: nat): seq<string>
    requires n <= |configs|
  {
    seq(n, i requires 0 <= i < n => configs[i].name)
  }

  /** The accounts of a running or finished load. */
  ghost predicate Balanced(configs: seq<PluginConfig>, l: Loading, n: nat)
    requires n <= |configs|
  {
    && NoRepeats(Initialised(l.calls))
    && (if l.error.None? then
          && TornDown(l.calls) == []
          && Initialised(l.calls) == PluginNames(l.registered) == NameList(configs, n)
        else
          l.registered == [] && TornDown(l.calls) == Initialised(l.calls))
  }

  /** Giving up tears down what was initialised. */
  lemma {:induction false} AbortBalances(configs: seq<PluginConfig>, l: Loading, more: seq<Call>, error: Error, n: nat)
    requires n < |configs| && l.error.None? && Balanced(configs, l, n)
    requires TornDown(l.calls + more) == [] && Initialised(l.calls + more) == Initialised(l.calls)
    ensures Balanced(configs, Abort(l, more, error), n + 1)
  {
    TeardownsAdd(l.calls + more, l.registered);
    assert TornDown(l.calls + more) + PluginNames(l.registered) == PluginNames(l.registered);
  }

  lemma {:induction false} RegisterBalances(configs: seq<PluginConfig>, l: Loading, p: Plugin, n: nat)
    requires n < |configs| && l.error.None? && Balanced(configs, l, n)
    requires Registrable(p) && p.name == configs[n].name && p.name !in Names(configs, n)
    ensures Balanced(configs, Loading(l.registered + [p], l.calls + RegisterCalls(p), None), n + 1)
  {
    RegisterAdds(l.calls, p);
    assert PluginNames(l.registered + [p]) == PluginNames(l.registered) + [p.name];
    assert NameList(configs, n + 1) == NameList(configs, n) + [p.name];
    forall i | 0 <= i < n
      ensures NameList(configs, n)[i] != p.name
    {
      assert configs[i].name in Names(configs, n);
    }
  }

  lemma {:induction false} BalancedStep(configs: seq<PluginConfig>, build: Build, l: Loading, n: nat, next: Loading)
    requires n < |configs| && KeepsNames(configs, build) && l.error.None? && Balanced(configs, l, n)
    requires next == LoadOne(l, Names(configs, n), configs[n], build)
    ensures Balanced(configs, next, n + 1)
  {
    var cfg := configs[n];
    assert cfg in configs;
    if cfg.name in Names(configs, n) {
      assert l.calls + [] == l.calls;
      AbortBalances(configs, l, [], DuplicateName(cfg.name), n);
    } else {
      match build(cfg)
      case Err(reason) =>
        assert l.calls + [] == l.calls;
        AbortBalances(configs, l, [], BuildFailed(reason), n);
      case Ok(p) =>
        RegisterAdds(l.calls, p);
        if Registrable(p) {
          RegisterBalances(configs, l, p, n);
        } else {
          AbortBalances(configs, l, RegisterCalls(p), RegisterFailed(cfg.name), n);
        }
    }
  }

  /**
   For every list of configurations and every way to fail: each plugin whose `init` succeeded is torn
   down exactly once, in registration order, and the manager ends empty; without failure nothing is torn down.
   */
  lemma {:induction false} LoadBalances(configs: seq<PluginConfig>, build: Build, n: nat, l: Loading)
    requires n <= |configs| && KeepsNames(configs, build) && l == Load(configs, build, n)
    ensures Balanced(configs, l, n)
    decreases n
  {
    if n > 0 {
      var before := Load(configs, build, n - 1);
      LoadBalances(configs, build, n - 1, before);
      if before.error.None? {
        assert l == LoadOne(before, Names(configs, n - 1), configs[n - 1], build);
        BalancedStep(configs, build, before, n - 1, l);
      } else {
        assert l == before;
      }
    }
  }

  /** Dropping the manager of a successful load completes the accounts. */
  lemma {:induction false} DropBalances(configs: seq<PluginConfig>, build: Build)
    requires KeepsNames(configs, build) && Load(configs, build, |configs|).error.None?
    ensures var l := Load(configs, build, |configs|);
            var calls := l.calls + Teardowns(l.registered);
            && TornDown(calls) == Initialised(calls) == NameList(configs, |configs|)
            && NoRepeats(TornDown(calls))
  {
    var l := Load(configs, build, |configs|);
    LoadBalances(configs, build, |configs|, l);
    TeardownsAdd(l.calls, l.registered);
    assert TornDown(l.calls) + PluginNames(l.registered) == PluginNames(l.registered);
  }

  /** Plugin `i` builds, speaks version 1 of the contract and initialises. */
  ghost predicate Works(configs: seq<PluginConfig>, build: Build, i: nat)
    requires i < |configs|
  {
    var built := build(configs[i]);
    built.Ok? && built.value.contractVersion == 1 && built.value.initOk
  }

  ghost predicate Repeats(configs: seq<PluginConfig>, i: nat)
    requires i < |configs|
  {
    exists j | 0 <= j < i :: configs[j].name == configs[i].name
  }

  ghost predicate AllLoad(configs: seq<PluginConfig>, build: Build, n: nat)
    requires n <= |configs|
  {
    forall i: nat | i < n :: Works(configs, build, i) && !Repeats(configs, i)
  }

  lemma {:induction false} SeenIffRepeats(configs: seq<PluginConfig>, i: nat)
    requires i < |configs|
    ensures configs[i].name in Names(configs, i) <==> Repeats(configs, i)
  {
  }

  /** Loading succeeds exactly when names do not repeat and every plugin builds and registers. */
  lemma {:induction false} LoadSucceedsIff(configs: seq<PluginConfig>, build: Build, n: nat)
    requires n <= |configs|
    ensures Load(configs, build, n).error.None? <==> AllLoad(configs, build, n)
    decreases n
  {
    if n > 0 {
      LoadSucceedsIff(configs, build, n - 1);
      SeenIffRepeats(configs, n - 1);
    }
  }

  /** Configuration `k` is the first that cannot be loaded. */
  ghost predicate FailsFirst(configs: seq<PluginConfig>, build: Build, k: nat) {
    && k < |configs| && (Repeats(configs, k) || !Works(configs, build, k))
    && AllLoad(configs, build, k)
  }

  /**
   Loading stops at the first configuration that cannot be loaded and says why: its name is taken, it does not
   build, or it does not register. What was initialised before is torn down again, in the same order.
   */
  lemma {:induction false} FirstFailureIsReported(configs: seq<PluginConfig>, build: Build, k: nat)
    requires KeepsNames(configs, build) && FailsFirst(configs, build, k)
    ensures var l, name, built := Load(configs, build, |configs|), configs[k].name, build(configs[k]);
            && l.error == Some(if Repeats(configs, k) then DuplicateName(name)
                               else if built.Err? then BuildFailed(built.error)
                               else RegisterFailed(name))
            && l.registered == [] && Initialised(l.calls) == TornDown(l.calls) == NameList(configs, k)
  {
    var before := Load(configs, build, k);
    LoadSucceedsIff(configs, build, k);
    SeenIffRepeats(configs, k);
    FailureIsReported(before, Names(configs, k), configs[k], build);
    FailureIsFinal(configs, build, k, LoadOne(before, Names(configs, k), configs[k], build));
    LoadBalances(configs, build, k, before);
  }

  /** Why one configuration cannot be loaded. */
  lemma {:induction false} FailureIsReported(l: Loading, seen: set<string>, cfg: PluginConfig, build: Build)
    ensures LoadOne(l, seen, cfg, build).error
         == if cfg.name in seen then Some(DuplicateName(cfg.name))
            else
              match build(cfg)
              case Err(reason) => Some(BuildFailed(reason))
              case Ok(p) => if p.contractVersion == 1 && p.initOk then None else Some(RegisterFailed(cfg.name))
  {
  }

  lemma {:induction false} FailureIsFinal(configs: seq<PluginConfig>, build: Build, k: nat, after: Loading)
    requires KeepsNames(configs, build) && k < |configs|
    requires Load(configs, build, k).error.None? && after.error.Some?
    requires after == LoadOne(Load(configs, build, k), Names(configs, k), configs[k], build)
    ensures Load(configs, build, |configs|) == after && after.registered == []
    ensures Initialised(after.calls) == TornDown(after.calls) == Initialised(Load(configs, build, k).calls)
  {
    assert Load(configs, build, k + 1) == after;
    LoadStops(configs, build, k + 1);
    LoadBalances(configs, build, k + 1, after);
    FailureAddsNothing(Load(configs, build, k), Names(configs, k), configs[k], build);
  }

  /** A configuration that cannot be loaded leaves no plugin initialised that was not before. */
  lemma {:induction false} FailureAddsNothing(l: Loading, seen: set<string>, cfg: PluginConfig, build: Build)
    requires LoadOne(l, seen, cfg, build).error.Some?
    ensures Initialised(LoadOne(l, seen, cfg, build).calls) == Initialised(l.calls)
  {
    assert l.calls + [] == l.calls;
    TeardownsAdd(l.calls, l.registered);
    if cfg.name !in seen && build(cfg).Ok? {
      var p := build(cfg).value;
      RegisterAdds(l.calls, p);
      TeardownsAdd(l.calls + RegisterCalls(p), l.registered);
      assert Initialised(l.calls) + [] == Initialised(l.calls);
    }
  }

  // --- Whose `init` is called ---

  /** The plugins whose `init` was called, in order, whatever came of it. */
  function Attempted(calls: seq<Call>): seq<string> {
    if calls == [] then []
    else
      Attempted(calls[..|calls| - 1]) + match calls[|calls| - 1] case Init(name, _) => [name] case _ => []
  }

  lemma {:induction false} AttemptedAdd(calls: seq<Call>, plugins: seq<Plugin>)
    ensures Attempted(calls + Teardowns(plugins)) == Attempted(calls)
  {
    if plugins == [] {
      assert calls + Teardowns(plugins) == calls;
    } else {
      var n := |plugins| - 1;
      AttemptedAdd(calls, plugins[..n]);
      TeardownsSplit(plugins, n);
      var before, last := calls + Teardowns(plugins[..n]), Teardown(plugins[n].name, plugins[n].teardownOk);
      assert calls + Teardowns(plugins) == before + [last];
      assert (before + [last])[..|before|] == before;
      assert Attempted(before) + [] == Attempted(before);
    }
  }

  /** One configuration leads to one call of `init` if it gets as far as a plugin of version 1, and to none otherwise. */
  lemma {:induction false} AttemptedStep(l: Loading, seen: set<string>, cfg: PluginConfig, build: Build)
    requires build(cfg).Ok? ==> build(cfg).value.name == cfg.name
    ensures Attempted(LoadOne(l, seen, cfg, build).calls)
         == Attempted(l.calls)
            + if cfg.name !in seen && build(cfg).Ok? && build(cfg).value.contractVersion == 1 then [cfg.name] else []
  {
    assert l.calls + [] == l.calls && Attempted(l.calls) + [] == Attempted(l.calls);
    AttemptedAdd(l.calls, l.registered);
    if cfg.name !in seen && build(cfg).Ok? {
      var p := build(cfg).value;
      AttemptedAdd(l.calls + RegisterCalls(p), l.registered);
      assert RegisterCalls(p) != [] ==> (l.calls + RegisterCalls(p))[..|l.calls|] == l.calls;
    }
  }

  lemma {:induction false} InitCallsGrow(configs: seq<PluginConfig>, build: Build, l: Loading, n: nat, next: Loading)
    requires n < |configs| && KeepsNames(configs, build) && Works(configs, build, n) && !Repeats(configs, n)
    requires next == LoadOne(l, Names(configs, n), configs[n], build) && Attempted(l.calls) == NameList(configs, n)
    ensures Attempted(next.calls) == NameList(configs, n + 1)
  {
    SeenIffRepeats(configs, n);
    assert configs[n] in configs;
    AttemptedStep(l, Names(configs, n), configs[n], build);
    assert NameList(configs, n + 1) == NameList(configs, n) + [configs[n].name];
  }

  lemma {:induction false} InitCallsOfLoaded(configs: seq<PluginConfig>, build: Build, n: nat, l: Loading)
    requires n <= |configs| && KeepsNames(configs, build) && AllLoad(configs, build, n) && l == Load(configs, build, n)
    ensures Attempted(l.calls) == NameList(configs, n)
    decreases n
  {
    if n > 0 {
      var before := Load(configs, build, n - 1);
      InitCallsOfLoaded(configs, build, n - 1, before);
      LoadSucceedsIff(configs, build, n - 1);
      InitCallsGrow(configs, build, before, n - 1, l);
    }
  }

  /** `init` is called once for every configuration before the first failure, and there only on a plugin of version 1. */
  lemma {:induction false} InitCallsFollow(configs: seq<PluginConfig>, build: Build, k: nat)
    requires KeepsNames(configs, build) && FailsFirst(configs, build, k)
    ensures Attempted(Load(configs, build, |configs|).calls)
         == NameList(configs, k)
            + if !Repeats(configs, k) && build(configs[k]).Ok? && build(configs[k]).value.contractVersion == 1
              then [configs[k].name] else []
  {
    var l := Load(configs, build, k);
    InitCallsOfLoaded(configs, build, k, l);
    LoadSucceedsIff(configs, build, k);
    SeenIffRepeats(configs, k);
    AttemptedStep(l, Names(configs, k), configs[k], build);
    FailureIsReported(l, Names(configs, k), configs[k], build);
    FailureIsFinal(configs, build, k, LoadOne(l, Names(configs, k), configs[k], build));
  }
}
