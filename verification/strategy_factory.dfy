/**
 * Resolution of a strategy from its configured short name: the container
 * registers each implementation under its bean name, which is the short name
 * followed by "Strategy".
 */
module StrategyFactory {
  import opened Domain
  import opened CacheAside
  import opened WriteThrough
  import opened FailFast
  import opened AsyncCache
  import opened CacheStrategies

  /** The four component beans of the bean map the container injects, each
      implementation under its component name. (The injected map also holds
      the `primaryCacheStrategy` bean, which is the selection itself and is
      left out here.) */
  function Registry(cacheAside: CacheAsideStrategy, writeThrough: WriteThroughStrategy,
                    failFast: FailFastStrategy, asyncCache: AsyncCacheStrategy): map<string, CacheStrategy>
  {
    map[
      "cacheAsideStrategy" := CacheAsideBean(cacheAside),
      "writeThroughStrategy" := WriteThroughBean(writeThrough),
      "failFastStrategy" := FailFastBean(failFast),
      "asyncCacheStrategy" := AsyncCacheBean(asyncCache)
    ]
  }

  /** The short names the registry answers to. */
  const KnownNames: set<string> := {"cacheAside", "writeThrough", "failFast", "asyncCache"}

  class CacheStrategyFactory {
    const strategies: map<string, CacheStrategy>

    constructor (strategies: map<string, CacheStrategy>)
      ensures this.strategies == strategies
    {
      this.strategies := strategies;
    }

    /** `getStrategy`: the bean registered as name + "Strategy", or an
        "unknown cache strategy" error naming the short name. The name is
        taken as given: no case folding. */
    function GetStrategy(strategyName: string): (r: Result<CacheStrategy>)
      ensures r.Ok? <==> strategyName + "Strategy" in strategies
      ensures r.Ok? ==> r.value == strategies[strategyName + "Strategy"]
      ensures r.Err? ==> r.error == UnknownStrategy(strategyName)
    {
      var beanName := strategyName + "Strategy";
      if beanName in strategies then Ok(strategies[beanName]) else Err(UnknownStrategy(strategyName))
    }

    /** `getCacheAsideStrategy`: resolves "cacheAside". */
    function GetCacheAsideStrategy(): (r: Result<CacheStrategy>)
      ensures r.Ok? <==> "cacheAsideStrategy" in strategies
      ensures r.Ok? ==> r.value == strategies["cacheAsideStrategy"]
    {
      assert "cacheAside" + "Strategy" == "cacheAsideStrategy";
      GetStrategy("cacheAside")
    }

    /** `getWriteThroughStrategy`: resolves "writeThrough". */
    function GetWriteThroughStrategy(): (r: Result<CacheStrategy>)
      ensures r.Ok? <==> "writeThroughStrategy" in strategies
      ensures r.Ok? ==> r.value == strategies["writeThroughStrategy"]
    {
      assert "writeThrough" + "Strategy" == "writeThroughStrategy";
      GetStrategy("writeThrough")
    }

    /** `getFailFastStrategy`: resolves "failFast". */
    function GetFailFastStrategy(): (r: Result<CacheStrategy>)
      ensures r.Ok? <==> "failFastStrategy" in strategies
      ensures r.Ok? ==> r.value == strategies["failFastStrategy"]
    {
      assert "failFast" + "Strategy" == "failFastStrategy";
      GetStrategy("failFast")
    }

    /** `getAsyncCacheStrategy`: resolves "asyncCache". */
    function GetAsyncCacheStrategy(): (r: Result<CacheStrategy>)
      ensures r.Ok? <==> "asyncCacheStrategy" in strategies
      ensures r.Ok? ==> r.value == strategies["asyncCacheStrategy"]
    {
      assert "asyncCache" + "Strategy" == "asyncCacheStrategy";
      GetStrategy("asyncCache")
    }
  }

  /** Appending the suffix is injective: only the bean's own short name
      resolves to it. */
  lemma SuffixInjective(name: string, short: string)
    ensures name + "Strategy" == short + "Strategy" <==> name == short
  {
    if name + "Strategy" == short + "Strategy" {
      assert |name| == |short|;
      assert name == (name + "Strategy")[..|name|];
      assert short == (short + "Strategy")[..|short|];
    }
  }

  /** Over the container's registry, resolution succeeds exactly for the four
      short names, each yielding the implementation of that name, and no
      other spelling (such as "CACHE_ASIDE" or "CacheAside") resolves. */
  lemma RegistryResolution(factory: CacheStrategyFactory, cacheAside: CacheAsideStrategy,
                           writeThrough: WriteThroughStrategy, failFast: FailFastStrategy,
                           asyncCache: AsyncCacheStrategy, name: string)
    requires factory.strategies == Registry(cacheAside, writeThrough, failFast, asyncCache)
    ensures factory.GetStrategy(name).Ok? <==> name in KnownNames
    ensures name == "cacheAside" ==> factory.GetStrategy(name) == Ok(CacheAsideBean(cacheAside))
    ensures name == "writeThrough" ==> factory.GetStrategy(name) == Ok(WriteThroughBean(writeThrough))
    ensures name == "failFast" ==> factory.GetStrategy(name) == Ok(FailFastBean(failFast))
    ensures name == "asyncCache" ==> factory.GetStrategy(name) == Ok(AsyncCacheBean(asyncCache))
  {
    assert "cacheAside" + "Strategy" == "cacheAsideStrategy";
    assert "writeThrough" + "Strategy" == "writeThroughStrategy";
    assert "failFast" + "Strategy" == "failFastStrategy";
    assert "asyncCache" + "Strategy" == "asyncCacheStrategy";
    SuffixInjective(name, "cacheAside");
    SuffixInjective(name, "writeThrough");
    SuffixInjective(name, "failFast");
    SuffixInjective(name, "asyncCache");
  }
}
