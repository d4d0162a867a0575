/** The configuration records the components are built from
    (config/types.go). Loading them from YAML is not part of this model. */
module Config {

  datatype CacheConfig = CacheConfig(kind: string, redis: RedisConfig)

  datatype RedisConfig = RedisConfig(address: string, password: string, db: int, ttlSeconds: int)

  datatype EventBrokerConfig = EventBrokerConfig(kind: string, kafka: KafkaConfig)

  datatype KafkaConfig = KafkaConfig(
    brokers: seq<string>,
    topics: seq<string>,
    groupId: string,
    reader: KafkaReaderConfig)

  datatype KafkaReaderConfig = KafkaReaderConfig(minBytes: int, maxBytes: int, maxWaitMs: int, queueCapacity: int)

  datatype InvalidationConfig = InvalidationConfig(strategy: string, versioned: VersionedStrategy)

  datatype VersionedStrategy = VersionedStrategy(delimiter: string, defaultVersion: int)
}
