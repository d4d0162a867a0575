/** The versioned-key invalidation strategy (core/strategy/strategy_versioned.go):
    a logical (topic, key) pair becomes the physical key
    `topic + ":" + key + delimiter + decimal(version)`, and the requested TTL
    is used unchanged. */
module Strategy {
  import Config

  /** The strategy's fixed configuration; no field changes after construction. */
  datatype VersionedKeyStrategy = VersionedKeyStrategy(delimiter: string, defaultVersion: int)

  function NewVersionedKeyStrategy(cfg: Config.VersionedStrategy): (s: VersionedKeyStrategy)
    ensures s.delimiter == cfg.delimiter && s.defaultVersion == cfg.defaultVersion
  {
    VersionedKeyStrategy(cfg.delimiter, cfg.defaultVersion)
  }

  /** The physical key of (topic, key). Its four parts are at fixed places:
      the topic and a colon, the key, the delimiter, and the rendered version. */
  function GenerateKey(s: VersionedKeyStrategy, topic: string, key: string): (r: string)
    ensures |r| == |topic| + 1 + |key| + |s.delimiter| + |ToString(s.defaultVersion)|
    ensures r[..|topic| + 1] == topic + ":"
    ensures r[|topic| + 1..|topic| + 1 + |key|] == key
    ensures r[|topic| + 1 + |key|..|r| - |ToString(s.defaultVersion)|] == s.delimiter
    ensures r[|r| - |ToString(s.defaultVersion)|..] == ToString(s.defaultVersion)
  {
    var head := topic + ":" + key + s.delimiter;
    assert head + ToString(s.defaultVersion) == topic + ":" + key + s.delimiter + ToString(s.defaultVersion);
    head + ToString(s.defaultVersion)
  }

  /** The base policy: the effective TTL is the requested one, whatever its sign. */
  function ComputeTTL(s: VersionedKeyStrategy, baseTTL: int): (r: int)
    ensures r == baseTTL
  {
    baseTTL
  }

  // ---------------------------------------------------------------------------
  // Decimal rendering, as `fmt.Sprintf("%d", i)` writes an int

  predicate IsDigit(c: char) {
    '0' <= c <= '9'
  }

  function DigitChar(d: nat): (c: char)
    requires d < 10
    ensures IsDigit(c) && c as int - '0' as int == d
  {
    ('0' as int + d) as char
  }

  /** The digits of `n` with no leading zero (except for `n == 0` itself). */
  function NatDigits(n: nat): (r: string)
    ensures |r| > 0 && (r[0] == '0' ==> n == 0)
    ensures forall i :: 0 <= i < |r| ==> IsDigit(r[i])
    decreases n
  {
    if n < 10 then [DigitChar(n)] else NatDigits(n / 10) + [DigitChar(n % 10)]
  }

  /** `fmt.Sprintf("%d", i)`: a minus sign for a negative number, then the digits of its magnitude. */
  function ToString(i: int): (r: string)
    ensures |r| > 0
    ensures r[0] == '-' <==> i < 0
  {
    if i < 0 then "-" + NatDigits(-i) else NatDigits(i)
  }

  /** The value a string of decimal digits denotes. */
  function DigitsValue(s: string): int
  {
    if s == [] then 0 else DigitsValue(s[..|s| - 1]) * 10 + (s[|s| - 1] as int - '0' as int)
  }

  /** Reads back what `ToString` writes. */
  function ParseInt(s: string): int
  {
    if |s| > 0 && s[0] == '-' then -DigitsValue(s[1..]) else DigitsValue(s)
  }

  lemma {:induction false} NatDigitsRoundTrip(n: nat)
    ensures DigitsValue(NatDigits(n)) == n
    decreases n
  {
    if n >= 10 {
      NatDigitsRoundTrip(n / 10);
      var r := NatDigits(n);
      assert r[..|r| - 1] == NatDigits(n / 10);
    }
  }

  /** Parsing a rendered integer gives the integer back. */
  lemma ToStringRoundTrip(i: int)
    ensures ParseInt(ToString(i)) == i
  {
    if i < 0 {
      NatDigitsRoundTrip(-i);
      assert ToString(i)[1..] == NatDigits(-i);
    } else {
      NatDigitsRoundTrip(i);
    }
  }

  /** Different integers render differently. */
  lemma ToStringInjective(a: int, b: int)
    requires ToString(a) == ToString(b)
    ensures a == b
  {
    ToStringRoundTrip(a);
    ToStringRoundTrip(b);
  }

  // ---------------------------------------------------------------------------
  // Properties of the physical key

  /** The version can be read back from the end of a physical key. */
  lemma VersionReadBack(s: VersionedKeyStrategy, topic: string, key: string)
    ensures var r := GenerateKey(s, topic, key);
            ParseInt(r[|r| - |ToString(s.defaultVersion)|..]) == s.defaultVersion
  {
    ToStringRoundTrip(s.defaultVersion);
  }

  /** Changing only the version changes the physical key of every (topic, key):
      the epoch-style invalidation of a whole generation of entries. */
  lemma VersionSensitive(s1: VersionedKeyStrategy, s2: VersionedKeyStrategy, topic: string, key: string)
    requires s1.delimiter == s2.delimiter
    requires s1.defaultVersion != s2.defaultVersion
    ensures GenerateKey(s1, topic, key) != GenerateKey(s2, topic, key)
  {
    var head := topic + ":" + key + s1.delimiter;
    var d1, d2 := ToString(s1.defaultVersion), ToString(s2.defaultVersion);
    if GenerateKey(s1, topic, key) == GenerateKey(s2, topic, key) {
      assert head + d1 == head + d2;
      assert d1 == (head + d1)[|head|..];
      assert d2 == (head + d2)[|head|..];
      ToStringInjective(s1.defaultVersion, s2.defaultVersion);
      assert false;
    }
  }

  /** The key is not injective in (topic, key): a colon inside the topic can
      move to the key and the physical key stays the same. */
  lemma TopicKeySplitCollides(s: VersionedKeyStrategy)
    ensures GenerateKey(s, "a:b", "c") == GenerateKey(s, "a", "b:c")
  {
    assert "a:b" + ":" + "c" == "a" + ":" + "b:c";
  }

  /** A nonempty topic never shares a physical key with the empty topic for the same key. */
  lemma EmptyTopicDiffers(s: VersionedKeyStrategy, topic: string, key: string)
    requires topic != ""
    ensures GenerateKey(s, "", key) != GenerateKey(s, topic, key)
  {
  }
}
