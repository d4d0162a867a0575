/** The backend selectors (core/adapter_factory.go): an exact, case-sensitive
    match on a configuration string picks a variant, and anything else is an
    error naming the rejected value. A selected variant records the
    constructor to run and its configuration: NewRedisAdapter,
    NewKafkaBroker or NewVersionedKeyStrategy. */
module Factory {
  import Config
  import Strategy

  datatype Result<T> = Ok(value: T) | Err(message: string)

  datatype CacheBackend = Redis(redis: Config.RedisConfig)

  datatype BrokerBackend = Kafka(kafka: Config.KafkaConfig)

  const CacheTypeError := "unsupported cache type: "
  const BrokerTypeError := "unsupported event broker type: "
  const StrategyError := "unsupported invalidation strategy: "

  function NewCacheAdapter(cfg: Config.CacheConfig): (r: Result<CacheBackend>)
    ensures r.Ok? <==> cfg.kind == "redis"
    ensures r.Ok? ==> r.value == Redis(cfg.redis)
    ensures r.Err? ==> r.message == CacheTypeError + cfg.kind
  {
    if cfg.kind == "redis" then Ok(Redis(cfg.redis)) else Err(CacheTypeError + cfg.kind)
  }

  function NewEventBroker(cfg: Config.EventBrokerConfig): (r: Result<BrokerBackend>)
    ensures r.Ok? <==> cfg.kind == "kafka"
    ensures r.Ok? ==> r.value == Kafka(cfg.kafka)
    ensures r.Err? ==> r.message == BrokerTypeError + cfg.kind
  {
    if cfg.kind == "kafka" then Ok(Kafka(cfg.kafka)) else Err(BrokerTypeError + cfg.kind)
  }

  function NewInvalidationStrategy(cfg: Config.InvalidationConfig): (r: Result<Strategy.VersionedKeyStrategy>)
    ensures r.Ok? <==> cfg.strategy == "versioned-key"
    ensures r.Ok? ==> r.value.delimiter == cfg.versioned.delimiter
                      && r.value.defaultVersion == cfg.versioned.defaultVersion
    ensures r.Err? ==> r.message == StrategyError + cfg.strategy
  {
    if cfg.strategy == "versioned-key" then Ok(Strategy.NewVersionedKeyStrategy(cfg.versioned))
    else Err(StrategyError + cfg.strategy)
  }

  /** The rejected value can be read back from each error message, after its fixed prefix. */
  lemma ErrorsNameRejectedValue(c: Config.CacheConfig, b: Config.EventBrokerConfig, i: Config.InvalidationConfig)
    ensures NewCacheAdapter(c).Err? ==> NewCacheAdapter(c).message[|CacheTypeError|..] == c.kind
    ensures NewEventBroker(b).Err? ==> NewEventBroker(b).message[|BrokerTypeError|..] == b.kind
    ensures NewInvalidationStrategy(i).Err? ==>
              NewInvalidationStrategy(i).message[|StrategyError|..] == i.strategy
  {
  }
}
