/**
 * The configuration of the tool: its defaults, the merge of a parsed
 * configuration file over them, and the API-key guard of `main`.
 */
module Config {
  import opened Types

  datatype Config = Config(
    apiKey: string,
    compressDir: string,
    extensions: seq<string>,
    concurrentLimit: int)

  /** The configuration used when the file is absent or unreadable. */
  const DefaultConfig := Config("", "./images", [".png", ".jpg", ".jpeg"], 5)

  /** The known keys a parsed configuration file may carry; a missing key is `None`. */
  datatype Overrides = Overrides(
    apiKey: Option<string>,
    compressDir: Option<string>,
    extensions: Option<seq<string>>,
    concurrentLimit: Option<int>)

  const NoOverrides := Overrides(None, None, None, None)

  /** The overrides that set every key to the value it has in `c`. */
  function AllOf(c: Config): Overrides
  {
    Overrides(Some(c.apiKey), Some(c.compressDir), Some(c.extensions), Some(c.concurrentLimit))
  }

  function Pick<T>(o: Option<T>, fallback: T): T
  {
    if o.Some? then o.value else fallback
  }

  /** `{ ...base, ...parsed }`: every key present in the parsed file wins, every other key keeps its base value. */
  function Merge(base: Config, parsed: Overrides): (c: Config)
    ensures parsed.apiKey.Some? ==> c.apiKey == parsed.apiKey.value
    ensures parsed.apiKey.None? ==> c.apiKey == base.apiKey
    ensures parsed.compressDir.Some? ==> c.compressDir == parsed.compressDir.value
    ensures parsed.compressDir.None? ==> c.compressDir == base.compressDir
    ensures parsed.extensions.Some? ==> c.extensions == parsed.extensions.value
    ensures parsed.extensions.None? ==> c.extensions == base.extensions
    ensures parsed.concurrentLimit.Some? ==> c.concurrentLimit == parsed.concurrentLimit.value
    ensures parsed.concurrentLimit.None? ==> c.concurrentLimit == base.concurrentLimit
  {
    Config(
      Pick(parsed.apiKey, base.apiKey),
      Pick(parsed.compressDir, base.compressDir),
      Pick(parsed.extensions, base.extensions),
      Pick(parsed.concurrentLimit, base.concurrentLimit))
  }

  /** Merging is neutral without keys, total when every key is given, and idempotent. */
  lemma MergeLaws(base: Config, parsed: Overrides, c: Config)
    ensures Merge(base, NoOverrides) == base
    ensures Merge(base, AllOf(c)) == c
    ensures Merge(Merge(base, parsed), parsed) == Merge(base, parsed)
  {
  }

  /**
   * `loadConfig`: `None` stands for a file that is missing or does not
   * parse; both give the defaults.
   */
  function LoadConfig(file: Option<Overrides>): (c: Config)
    ensures file.None? ==> c == DefaultConfig
    ensures file.Some? && file.value.apiKey.None? ==> c.apiKey == ""
    ensures file.Some? && file.value.apiKey.Some? ==> c.apiKey == file.value.apiKey.value
    ensures file.Some? ==> c.compressDir == Pick(file.value.compressDir, "./images")
    ensures file.Some? ==> c.extensions == Pick(file.value.extensions, [".png", ".jpg", ".jpeg"])
    ensures file.Some? ==> c.concurrentLimit == Pick(file.value.concurrentLimit, 5)
  {
    if file.None? then DefaultConfig else Merge(DefaultConfig, file.value)
  }

  /** The guard of `main`: an empty API key is falsy and stops the run. */
  predicate HasApiKey(c: Config)
  {
    c.apiKey != ""
  }

  /** A first run without a configuration file has no API key, and neither has a file that does not set one. */
  lemma FreshConfigHasNoKey(file: Option<Overrides>)
    requires file.None? || file.value.apiKey.None? || file.value.apiKey == Some("")
    ensures !HasApiKey(LoadConfig(file))
  {
  }
}
