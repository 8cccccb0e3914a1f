/** System configuration: a table with a Redis copy in front, and the URLs built from it. */
module SystemConfig {
  import opened Wrappers
  import opened Text
  import opened Json
  import opened Redis

  /** The table's value column is nullable; the cache holds texts under their Redis keys. */
  datatype Config = Config(table: map<string, Option<string>>, cache: map<string, string>)

  function TableValue(c: Config, key: string): Option<string> {
    if key in c.table then c.table[key] else None
  }

  function CachedValue(c: Config, key: string): Option<string> {
    if SysConfigKey(key) in c.cache then Some(c.cache[SysConfigKey(key)]) else None
  }

  /** `get`: the cached text, or the table's, which is then cached unless it is absent. */
  function ReadThrough(c: Config, key: string): (Config, Option<string>) {
    var value := if CachedValue(c, key).Some? then CachedValue(c, key) else TableValue(c, key);
    (Filled(c, key, value), value)
  }

  function Filled(c: Config, key: string, value: Option<string>): Config {
    if value.None? then c else c.(cache := c.cache[SysConfigKey(key) := value.value])
  }

  /** `set`: commit to the table, then overwrite the cache. */
  function WriteThrough(c: Config, key: string, value: string): Config {
    Config(c.table[key := Some(value)], c.cache[SysConfigKey(key) := value])
  }

  // ---------------------------------------------------------------- the cache refines the table

  /** A cached value is the table's value. */
  ghost predicate Consistent(c: Config) {
    forall key | SysConfigKey(key) in c.cache :: TableValue(c, key) == Some(c.cache[SysConfigKey(key)])
  }

  datatype Op = GetOp(key: string) | SetOp(key: string, value: string) | Evict(redisKey: string)

  function Apply(c: Config, op: Op): Config {
    match op
    case GetOp(key) => ReadThrough(c, key).0
    case SetOp(key, value) => WriteThrough(c, key, value)
    case Evict(redisKey) => c.(cache := c.cache - {redisKey})
  }

  function Run(c: Config, ops: seq<Op>): Config {
    if ops == [] then c else Apply(Run(c, ops[..|ops| - 1]), ops[|ops| - 1])
  }

  /** The value last set for a key, or what the table held at the start. */
  function LastSet(c: Config, ops: seq<Op>, key: string): Option<string> {
    if ops == [] then TableValue(c, key)
    else
      var last := ops[|ops| - 1];
      if last.SetOp? && last.key == key then Some(last.value) else LastSet(c, ops[..|ops| - 1], key)
  }

  lemma KeysDiffer(a: string, b: string)
    ensures SysConfigKey(a) == SysConfigKey(b) <==> a == b
  {
    if SysConfigKey(a) == SysConfigKey(b) {
      CancelPrefix("sysconfig:", a, b);
    }
  }

  lemma ApplyKeepsConsistent(c: Config, op: Op)
    requires Consistent(c)
    ensures Consistent(Apply(c, op))
  {
    forall key | SysConfigKey(key) in Apply(c, op).cache
      ensures TableValue(Apply(c, op), key) == Some(Apply(c, op).cache[SysConfigKey(key)])
    {
      if !op.Evict? {
        KeysDiffer(key, op.key);
      }
    }
  }

  /** Over whole calls and any evictions, `get` returns the last value set and the cache never lies. */
  lemma {:induction false} GetReturnsLastSet(c: Config, ops: seq<Op>, key: string)
    requires Consistent(c)
    ensures Consistent(Run(c, ops))
    ensures TableValue(Run(c, ops), key) == LastSet(c, ops, key)
    ensures ReadThrough(Run(c, ops), key).1 == LastSet(c, ops, key)
  {
    hide SysConfigKey;
    if ops != [] {
      GetReturnsLastSet(c, ops[..|ops| - 1], key);
      ApplyKeepsConsistent(Run(c, ops[..|ops| - 1]), ops[|ops| - 1]);
    }
  }

  // ---------------------------------------------------------------- connection settings and URLs

  /** A present, non-empty text. */
  predicate Usable(v: Option<string>) {
    v.Some? && v.value != ""
  }

  function HostUrl(ip: string, port: string): string {
    "http://" + (ip + (":" + port))
  }

  datatype Settings = Settings(ip: Option<string>, port: Option<int>, baseUrl: string)

  /** `None` stands for the `ValueError` of `int(port)`. */
  function SettingsOf(ip: Option<string>, port: Option<string>, defaultUrl: string): Option<Settings> {
    var url := if Usable(ip) && Usable(port) then HostUrl(ip.value, port.value) else defaultUrl;
    if !Usable(port) then Some(Settings(ip, None, url))
    else if ParseInt(port.value).None? then None
    else Some(Settings(ip, ParseInt(port.value), url))
  }

  /** `get_connection_settings`: two reads, each of which may fill the cache. */
  function ConnectionSettings(c: Config, defaultUrl: string): (Config, Option<Settings>) {
    var (c1, ip) := ReadThrough(c, "rcs_ip");
    var (c2, port) := ReadThrough(c1, "rcs_port");
    (c2, SettingsOf(ip, port, defaultUrl))
  }

  /** The URL the preview shows. */
  function PreviewUrl(settings: Settings, path: string): string {
    TrimSlashes(settings.baseUrl) + path
  }

  /** The URL the client calls: it looks at the cache only. */
  function ResolvedUrl(c: Config, clientBase: string, path: string): string {
    var ip, port := CachedValue(c, "rcs_ip"), CachedValue(c, "rcs_port");
    if Usable(ip) && Usable(port) then HostUrl(ip.value, port.value) + path else clientBase + path
  }

  lemma TrimKeepsHostUrl(ip: string, port: string)
    requires port != "" && ParseInt(port).Some?
    ensures TrimSlashes(HostUrl(ip, port)) == HostUrl(ip, port)
  {
    NumericHasNoTrailingSlash(port);
    var url := HostUrl(ip, port);
    assert url[|url| - 1] == port[|port| - 1];
  }

  /** Right after the settings were read, the preview is the URL a default-built client will call. */
  lemma PreviewMatchesClient(c: Config, defaultUrl: string, path: string)
    requires ConnectionSettings(c, defaultUrl).1.Some?
    ensures var (c', settings) := ConnectionSettings(c, defaultUrl);
            && PreviewUrl(settings.value, path) == ResolvedUrl(c', TrimSlashes(defaultUrl), path)
            && (settings.value.ip.Some? && settings.value.ip.value != "" && settings.value.port.Some? ==>
                 exists port :: ParseInt(port) == settings.value.port
                   && PreviewUrl(settings.value, path) == "http://" + (settings.value.ip.value + (":" + port)) + path)
            && (settings.value.ip.None? || settings.value.ip.value == "" || settings.value.port.None? ==>
                 PreviewUrl(settings.value, path) == TrimSlashes(defaultUrl) + path)
  {
    hide ParseInt, SysConfigKey;
    KeysDiffer("rcs_ip", "rcs_port");
    var (c1, ip) := ReadThrough(c, "rcs_ip");
    var (c2, port) := ReadThrough(c1, "rcs_port");
    assert CachedValue(c2, "rcs_ip") == ip && CachedValue(c2, "rcs_port") == port;
    if Usable(ip) && Usable(port) {
      TrimKeepsHostUrl(ip.value, port.value);
    }
  }

  /** Writing the settings and reading them back gives the same address, port number included. */
  lemma SettingsRoundTrip(c: Config, ip: string, port: int, defaultUrl: string)
    ensures var written := WriteThrough(WriteThrough(c, "rcs_ip", ip), "rcs_port", IntText(port));
            ConnectionSettings(written, defaultUrl).1 ==
            Some(Settings(Some(ip), Some(port),
                          if ip == "" then defaultUrl else "http://" + (ip + (":" + IntText(port)))))
  {
    hide ParseInt, SysConfigKey, IntText;
    KeysDiffer("rcs_ip", "rcs_port");
    ParseIntRoundTrip(port);
  }

  // ---------------------------------------------------------------- the repository

  /** The texts Redis answers with at an instant. */
  function Texts(store: Store, now: nat): map<string, string> {
    map k | k in store && Lookup(store, now, k).Some? && store[k].value.Str? :: store[k].value.s
  }

  /** Only texts are ever stored under configuration keys. */
  ghost predicate TextsOnly(store: Store) {
    forall key | SysConfigKey(key) in store :: store[SysConfigKey(key)].value.Str?
  }

  /** Reading the address does not change what reading the port gives. */
  lemma SettingsKeysApart(c: Config)
    ensures ReadThrough(ReadThrough(c, "rcs_ip").0, "rcs_port").1 == ReadThrough(c, "rcs_port").1
  {
    hide SysConfigKey;
    KeysDiffer("rcs_ip", "rcs_port");
  }

  lemma KeyIsSpelt(key: string)
    ensures SysConfigKey(key) == "sysconfig:" + key
  {
  }

  lemma StoringText(store: Store, now: nat, key: string, value: string)
    requires TextsOnly(store)
    ensures TextsOnly(store[SysConfigKey(key) := Entry(Str(value), None)])
    ensures Texts(store[SysConfigKey(key) := Entry(Str(value), None)], now) ==
              Texts(store, now)[SysConfigKey(key) := value]
  {
    hide SysConfigKey;
  }

  class SystemConfigRepository {
    const redis: RedisStore
    var table: map<string, Option<string>>

    constructor (redis: RedisStore)
      ensures this.redis == redis && table == map[]
    {
      this.redis := redis;
      table := map[];
    }

    ghost predicate Valid()
      reads redis
    {
      TextsOnly(redis.entries)
    }

    ghost function View(): Config
      reads this, redis
    {
      Config(table, Texts(redis.entries, redis.now))
    }

    method Read(key: string) returns (value: Option<string>)
      requires Valid()
      modifies redis`entries
      ensures Valid()
      ensures (View(), value) == ReadThrough(old(View()), key)
      ensures value == if "sysconfig:" + key in old(View()).cache then Some(old(View()).cache["sysconfig:" + key])
                       else if key in table then table[key] else None
      ensures View().cache == if value.Some? then old(View()).cache["sysconfig:" + key := value.value] else old(View()).cache
      ensures table == old(table)
    {
      hide SysConfigKey;
      KeyIsSpelt(key);
      var cached := redis.Get(SysConfigKey(key));
      if cached.Some? {
        value := Some(cached.value.s);
        assert View().cache == View().cache[SysConfigKey(key) := cached.value.s];
        return;
      }
      value := if key in table then table[key] else None;
      if value.Some? {
        StoringText(redis.entries, redis.now, key, value.value);
        redis.Set(SysConfigKey(key), Str(value.value));
      }
    }

    /** Commit, then the cache; either await can fail, and the second failure leaves the commit standing. */
    method Write(key: string, value: string, dbUp: bool, redisUp: bool) returns (ok: bool)
      requires Valid()
      modifies this, redis`entries
      ensures Valid()
      ensures ok <==> dbUp && redisUp
      ensures View() == if !dbUp then old(View())
                        else if !redisUp then Config(old(View()).table[key := Some(value)], old(View()).cache)
                        else WriteThrough(old(View()), key, value)
      ensures ok ==> table == old(table)[key := Some(value)] && View().cache == old(View()).cache["sysconfig:" + key := value]
    {
      hide SysConfigKey;
      KeyIsSpelt(key);
      if !dbUp {
        return false;
      }
      table := table[key := Some(value)];
      if !redisUp {
        return false;
      }
      StoringText(redis.entries, redis.now, key, value);
      redis.Set(SysConfigKey(key), Str(value));
      ok := true;
    }

    method GetConnectionSettings(defaultUrl: string) returns (settings: Option<Settings>)
      requires Valid()
      modifies redis`entries
      ensures Valid()
      ensures (View(), settings) == ConnectionSettings(old(View()), defaultUrl)
      ensures settings.Some? ==>
                && settings.value.ip == ReadThrough(old(View()), "rcs_ip").1
                && var port := ReadThrough(old(View()), "rcs_port").1;
                   if port.None? || port == Some("") then
                     settings.value.port.None? && settings.value.baseUrl == defaultUrl
                   else
                     && settings.value.port == ParseInt(port.value) && settings.value.port.Some?
                     && settings.value.baseUrl ==
                        if settings.value.ip.None? || settings.value.ip == Some("") then defaultUrl
                        else "http://" + (settings.value.ip.value + (":" + port.value))
      ensures settings.None? <==>
                var port := ReadThrough(old(View()), "rcs_port").1;
                port.Some? && port.value != "" && ParseInt(port.value).None?
    {
      hide ParseInt;
      SettingsKeysApart(View());
      var ip := Read("rcs_ip");
      var port := Read("rcs_port");
      settings := SettingsOf(ip, port, defaultUrl);
    }
  }
}
