/**
 * Start-up selection of the primary strategy: resolve the configured name,
 * keep it when it reports itself available, and otherwise fall back to
 * cache-aside.
 */
module StrategyConfig {
  import opened Domain
  import opened CacheHelpers
  import opened CacheAside
  import opened WriteThrough
  import opened FailFast
  import opened AsyncCache
  import opened CacheStrategies
  import opened StrategyFactory

  /** The strategy name used when the setting is absent. */
  const DefaultStrategy: string := "cacheAside"

  class CacheStrategyConfig {
    const configuredStrategy: string
    const strategyFactory: CacheStrategyFactory
    var selectedStrategy: Option<CacheStrategy>

    /** The setting `app.cache.strategy`, when present, names the strategy. */
    constructor (setting: Option<string>, strategyFactory: CacheStrategyFactory)
      ensures configuredStrategy == (if setting.Some? then setting.value else DefaultStrategy)
      ensures this.strategyFactory == strategyFactory && selectedStrategy == None
      ensures Valid()
    {
      configuredStrategy := if setting.Some? then setting.value else DefaultStrategy;
      this.strategyFactory := strategyFactory;
      selectedStrategy := None;
    }

    /** The cache helpers of the registered strategies: what an availability
        check may touch. */
    ghost function Helpers(): set<CacheHelper> {
      set s | s in strategyFactory.strategies.Values :: s.Helper()
    }

    /** A selected strategy is one of the registered ones. */
    ghost predicate Valid()
      reads this
    {
      selectedStrategy.Some? ==> selectedStrategy.value in strategyFactory.strategies.Values
    }

    /** `initializeStrategy`. The configured strategy is kept when it resolves
        and reports itself available. Otherwise (unknown name, or unavailable)
        cache-aside is selected; if cache-aside itself cannot be resolved,
        start-up fails, and the selection is left as the failed attempt left
        it. The availability check leaves every cache's entries as they were. */
    method InitializeStrategy() returns (o: Outcome)
      requires Valid() && forall h | h in Helpers() :: h.Valid()
      modifies this, Helpers()
      ensures Valid() && forall h | h in Helpers() :: h.Valid()
      ensures forall h | h in Helpers() :: h.entries == old(h.entries) && h.health == old(h.health)
      ensures var bean := configuredStrategy + "Strategy";
        bean in strategyFactory.strategies && old(strategyFactory.strategies[bean].AvailableNow()) ==>
          o == Pass && selectedStrategy == Some(strategyFactory.strategies[bean])
      ensures var bean := configuredStrategy + "Strategy";
        !(bean in strategyFactory.strategies && old(strategyFactory.strategies[bean].AvailableNow())) ==>
          if "cacheAsideStrategy" in strategyFactory.strategies then
            o == Pass && selectedStrategy == Some(strategyFactory.strategies["cacheAsideStrategy"])
          else
            && o == Fail(UnknownStrategy(DefaultStrategy))
            && selectedStrategy ==
                 (if bean in strategyFactory.strategies then Some(strategyFactory.strategies[bean])
                  else old(selectedStrategy))
    {
      var resolved := strategyFactory.GetStrategy(configuredStrategy);
      if resolved.Ok? {
        selectedStrategy := Some(resolved.value);
        assert resolved.value.Helper() in Helpers();
        var available := IsStrategyAvailable(resolved.value);
        if available {
          return Pass;
        }
      }
      var fallback := strategyFactory.GetCacheAsideStrategy();
      if fallback.Err? {
        return Fail(UnknownStrategy(DefaultStrategy));
      }
      selectedStrategy := Some(fallback.value);
      o := Pass;
    }

    /** `primaryCacheStrategy`: the selection, always a registered strategy. */
    function PrimaryCacheStrategy(): (strategy: Option<CacheStrategy>)
      requires Valid()
      reads this
      ensures strategy.Some? ==> strategy.value in strategyFactory.strategies.Values
    {
      selectedStrategy
    }
  }

  /** Start-up over the container's registry never fails: the configured
      strategy is selected when its name resolves and it is available, and
      cache-aside otherwise (an unknown name such as "doesNotExist" included). */
  method StartUp(setting: Option<string>, cacheAside: CacheAsideStrategy, writeThrough: WriteThroughStrategy,
                 failFast: FailFastStrategy, asyncCache: AsyncCacheStrategy)
    returns (config: CacheStrategyConfig, o: Outcome)
    requires cacheAside.cacheHelper.Valid() && writeThrough.cacheHelper.Valid()
    requires failFast.cacheHelper.Valid() && asyncCache.cacheHelper.Valid()
    modifies cacheAside.cacheHelper, writeThrough.cacheHelper, failFast.cacheHelper, asyncCache.cacheHelper
    ensures o == Pass && config.selectedStrategy.Some?
    ensures var name := if setting.Some? then setting.value else DefaultStrategy;
      name !in KnownNames ==> config.selectedStrategy == Some(CacheAsideBean(cacheAside))
    ensures var name := if setting.Some? then setting.value else DefaultStrategy;
      var chosen := config.selectedStrategy.value;
      chosen == CacheAsideBean(cacheAside) ||
      (var registry := Registry(cacheAside, writeThrough, failFast, asyncCache);
       name + "Strategy" in registry && chosen == registry[name + "Strategy"])
    ensures var chosen := config.selectedStrategy.value;
      chosen == CacheAsideBean(cacheAside) || old(chosen.AvailableNow())
  {
    var factory := new CacheStrategyFactory(Registry(cacheAside, writeThrough, failFast, asyncCache));
    config := new CacheStrategyConfig(setting, factory);
    RegistryResolution(factory, cacheAside, writeThrough, failFast, asyncCache, config.configuredStrategy);
    assert "cacheAside" + "Strategy" == "cacheAsideStrategy";
    assert "cacheAsideStrategy" in factory.strategies;
    o := config.InitializeStrategy();
  }
}
