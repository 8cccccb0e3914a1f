/**
 * Configuration reads and writes split at their awaits. A `get` looks in the cache, then selects
 * from the table, then fills the cache; a `set` commits to the table, then overwrites the cache.
 * Any number of workers interleave, may stop anywhere, and entries may be evicted.
 */
module ConfigWindows {
  import opened Wrappers
  import opened Redis
  import opened SystemConfig

  /** What a worker has still to do: select after a miss, fill with what it selected, cache what it set. */
  datatype Pending =
    | Missed(key: string)
    | Filling(key: string, value: string)
    | Caching(key: string, value: string)

  datatype State = State(config: Config, pending: map<nat, Pending>)

  datatype Event =
    | BeginGet(worker: nat, key: string)
    | BeginSet(worker: nat, key: string, value: string)
    | Continue(worker: nat)
    | Stop(worker: nat)
    | Evict(redisKey: string)

  function Cache(c: Config, key: string, value: string): Config {
    c.(cache := c.cache[SysConfigKey(key) := value])
  }

  /** The next await of a worker that is under way. */
  function Resume(s: State, w: nat): State
    requires w in s.pending
  {
    match s.pending[w]
    case Missed(key) =>
      var selected := TableValue(s.config, key);
      s.(pending := if selected.Some? then s.pending[w := Filling(key, selected.value)] else s.pending - {w})
    case Filling(key, value) => State(Cache(s.config, key, value), s.pending - {w})
    case Caching(key, value) => State(Cache(s.config, key, value), s.pending - {w})
  }

  /** A busy worker begins nothing, an idle one continues nothing. */
  function Step(s: State, e: Event): State {
    match e
    case BeginGet(w, key) =>
      if w in s.pending || CachedValue(s.config, key).Some? then s
      else s.(pending := s.pending[w := Missed(key)])
    case BeginSet(w, key, value) =>
      if w in s.pending then s
      else State(s.config.(table := s.config.table[key := Some(value)]), s.pending[w := Caching(key, value)])
    case Continue(w) =>
      if w in s.pending then Resume(s, w) else s
    case Stop(w) => s.(pending := s.pending - {w})
    case Evict(redisKey) => s.(config := s.config.(cache := s.config.cache - {redisKey}))
  }

  function Run(s: State, es: seq<Event>): State {
    if es == [] then s else Step(Run(s, es[..|es| - 1]), es[|es| - 1])
  }

  // ---------------------------------------------------------------- agreement, exactly

  /** The cache holds nothing for the key, or what the table holds. */
  predicate Agrees(c: Config, key: string) {
    CachedValue(c, key).Some? ==> CachedValue(c, key) == TableValue(c, key)
  }

  /** Some worker other than `except` is about to cache what it has set for the key. */
  ghost predicate Overwritten(pending: map<nat, Pending>, key: string, except: Option<nat>) {
    exists w :: w in pending && Some(w) != except && pending[w].Caching? && pending[w].key == key
  }

  /** The cache agrees with the table on the key, or a `set` of the key has still to cache its text. */
  ghost predicate FaithfulAt(s: State, key: string) {
    Agrees(s.config, key) || Overwritten(s.pending, key, None)
  }

  ghost predicate Faithful(s: State) {
    forall key :: FaithfulAt(s, key)
  }

  /**
   * What an event may find. A worker that caches a text finds the table holding that text; a `set`
   * that stops after its commit finds the cache empty or already right; or else another `set` of
   * the key has still to cache its own.
   */
  ghost predicate Harmless(s: State, e: Event) {
    (e.Continue? || e.Stop?) && e.worker in s.pending && !s.pending[e.worker].Missed? ==>
      var key, value := s.pending[e.worker].key, s.pending[e.worker].value;
      || (e.Continue? && TableValue(s.config, key) == Some(value))
      || (e.Stop? && (s.pending[e.worker].Filling? || Agrees(s.config, key)))
      || Overwritten(s.pending, key, Some(e.worker))
  }

  /** An event changes what is said about one key only: the one it works on. */
  predicate WorksOn(s: State, e: Event, key: string) {
    match e
    case BeginSet(_, k, _) => k == key
    case Continue(w) => w in s.pending && s.pending[w].key == key
    case Stop(w) => w in s.pending && s.pending[w].key == key
    case _ => false
  }

  lemma OthersKeepFaithful(s: State, e: Event, key: string)
    requires FaithfulAt(s, key) && !WorksOn(s, e, key)
    ensures FaithfulAt(Step(s, e), key)
  {
    hide SysConfigKey;
    if !e.Evict? && !e.Stop? {
      KeysDiffer(key, if e.Continue? then (if e.worker in s.pending then s.pending[e.worker].key else key) else e.key);
    }
    if w :| w in s.pending && s.pending[w].Caching? && s.pending[w].key == key {
      assert w in Step(s, e).pending && Step(s, e).pending[w] == s.pending[w];
    }
  }

  lemma WorkedKeyFaithfulIff(s: State, e: Event, key: string)
    requires FaithfulAt(s, key) && WorksOn(s, e, key)
    ensures FaithfulAt(Step(s, e), key) <==> Harmless(s, e)
  {
    hide SysConfigKey;
    var s' := Step(s, e);
    match e
    case BeginSet(w, _, value) =>
      if w !in s.pending {
        assert s'.pending[w] == Caching(key, value);
      }
    case Continue(w) => OthersOverwrite(s, s', w, key);
    case Stop(w) => OthersOverwrite(s, s', w, key);
    case _ =>
  }

  /** When worker w is done, the key is still to be overwritten exactly if another worker will do so. */
  lemma OthersOverwrite(s: State, s': State, w: nat, key: string)
    requires s'.pending == s.pending - {w} || (w in s.pending && s.pending[w].Missed? && s'.pending - {w} == s.pending - {w})
    requires w in s'.pending ==> s'.pending[w].Filling?
    ensures Overwritten(s'.pending, key, None) <==> Overwritten(s.pending, key, Some(w))
    ensures w in s.pending && !s.pending[w].Caching? ==>
              (Overwritten(s.pending, key, None) <==> Overwritten(s.pending, key, Some(w)))
  {
    assert forall v | v != w :: v in s'.pending <==> v in s'.pending - {w};
    assert forall v | v != w :: v in s.pending <==> v in s.pending - {w};
    assert forall v | v != w && v in s.pending :: (s.pending - {w})[v] == s.pending[v];
    assert forall v | v != w && v in s'.pending :: (s'.pending - {w})[v] == s'.pending[v];
  }

  /** A faithful state stays faithful over an event exactly when the event is harmless. */
  lemma StepIsFaithfulIff(s: State, e: Event)
    requires Faithful(s)
    ensures Faithful(Step(s, e)) <==> Harmless(s, e)
  {
    hide Step, FaithfulAt, WorksOn, Harmless;
    forall key | !WorksOn(s, e, key)
      ensures FaithfulAt(Step(s, e), key)
    {
      OthersKeepFaithful(s, e, key);
    }
    if key :| WorksOn(s, e, key) {
      WorkedKeyFaithfulIff(s, e, key);
      OneKey(s, e, key);
    } else {
      Idle(s, e);
    }
  }

  lemma OneKey(s: State, e: Event, key: string)
    requires WorksOn(s, e, key)
    ensures forall k | WorksOn(s, e, k) :: k == key
  {
  }

  lemma Idle(s: State, e: Event)
    requires forall key :: !WorksOn(s, e, key)
    ensures Harmless(s, e)
  {
    if (e.Continue? || e.Stop?) && e.worker in s.pending {
      assert WorksOn(s, e, s.pending[e.worker].key);
    }
  }

  /** In every state of the run, the first and the last included. */
  ghost predicate AlwaysFaithful(s: State, es: seq<Event>) {
    Faithful(Run(s, es)) && (es != [] ==> AlwaysFaithful(s, es[..|es| - 1]))
  }

  /** Each event, in the state that meets it. */
  ghost predicate AllHarmless(s: State, es: seq<Event>) {
    es != [] ==> Harmless(Run(s, es[..|es| - 1]), es[|es| - 1]) && AllHarmless(s, es[..|es| - 1])
  }

  /**
   * Over all interleavings, with workers stopping anywhere and any evictions: the cache agrees at
   * every moment with the table, on every key no `set` is in the middle of, if and only if every
   * event is harmless.
   */
  lemma {:induction false} FaithfulIffHarmless(s: State, es: seq<Event>)
    requires Faithful(s)
    ensures AlwaysFaithful(s, es) <==> AllHarmless(s, es)
  {
    hide Step, Harmless, Faithful;
    if es != [] {
      var init := es[..|es| - 1];
      FaithfulIffHarmless(s, init);
      if AlwaysFaithful(s, init) {
        StepIsFaithfulIff(Run(s, init), es[|es| - 1]);
      }
    }
  }

  // ---------------------------------------------------------------- agreement read off the history

  /** The text last committed for the key, or what the table held at the start. */
  function LastCommitted(s: State, es: seq<Event>, key: string): Option<string> {
    if es == [] then TableValue(s.config, key)
    else
      var before, e := Run(s, es[..|es| - 1]), es[|es| - 1];
      if e.BeginSet? && e.worker !in before.pending && e.key == key then Some(e.value)
      else LastCommitted(s, es[..|es| - 1], key)
  }

  /** The text last cached for the key since its last eviction, if any. */
  function LastCached(s: State, es: seq<Event>, key: string): Option<string> {
    if es == [] then CachedValue(s.config, key)
    else
      var before, e := Run(s, es[..|es| - 1]), es[|es| - 1];
      if e.Evict? && e.redisKey == SysConfigKey(key) then None
      else if e.Continue? && e.worker in before.pending && !before.pending[e.worker].Missed?
              && before.pending[e.worker].key == key
      then Some(before.pending[e.worker].value)
      else LastCached(s, es[..|es| - 1], key)
  }

  lemma {:induction false} HistoryDecides(s: State, es: seq<Event>, key: string)
    ensures TableValue(Run(s, es).config, key) == LastCommitted(s, es, key)
    ensures CachedValue(Run(s, es).config, key) == LastCached(s, es, key)
  {
    hide SysConfigKey;
    if es != [] {
      var before, e := Run(s, es[..|es| - 1]), es[|es| - 1];
      HistoryDecides(s, es[..|es| - 1], key);
      KeysDiffer(key, if e.BeginGet? || e.BeginSet? then e.key
                      else if e.Continue? && e.worker in before.pending then before.pending[e.worker].key
                      else key);
    }
  }

  /**
   * Harm told by the history alone. Caching a text is harmless exactly when it is the text committed
   * last; stopping a `set` after its commit exactly when nothing has been cached for the key since its
   * last eviction or what was cached last is the text committed last; and either when another `set`
   * of the key has still to cache its own.
   */
  lemma HarmlessByHistory(s: State, es: seq<Event>, w: nat)
    requires w in Run(s, es).pending && !Run(s, es).pending[w].Missed?
    ensures var todo, pending := Run(s, es).pending[w], Run(s, es).pending;
            && (Harmless(Run(s, es), Continue(w)) <==>
                 || LastCommitted(s, es, todo.key) == Some(todo.value)
                 || Overwritten(pending, todo.key, Some(w)))
            && (todo.Caching? ==>
                 (Harmless(Run(s, es), Stop(w)) <==>
                   || LastCached(s, es, todo.key).None?
                   || LastCached(s, es, todo.key) == LastCommitted(s, es, todo.key)
                   || Overwritten(pending, todo.key, Some(w))))
  {
    hide SysConfigKey, Overwritten, Run;
    HistoryDecides(s, es, Run(s, es).pending[w].key);
  }

  // ---------------------------------------------------------------- calls that do not overlap

  /** Nothing begins on a key while another call on it is under way, and no `set` stops after its commit. */
  ghost predicate Apart(s: State, e: Event) {
    && (e.BeginGet? || e.BeginSet? ==> forall w | w in s.pending :: s.pending[w].key != e.key)
    && (e.Stop? && e.worker in s.pending ==> !s.pending[e.worker].Caching?)
  }

  ghost predicate AllApart(s: State, es: seq<Event>) {
    es != [] ==> Apart(Run(s, es[..|es| - 1]), es[|es| - 1]) && AllApart(s, es[..|es| - 1])
  }

  /** One call at a time on each key, and what it will cache is what the table holds. */
  ghost predicate Current(s: State) {
    && (forall w | w in s.pending && !s.pending[w].Missed? ::
         TableValue(s.config, s.pending[w].key) == Some(s.pending[w].value))
    && (forall v, w | v in s.pending && w in s.pending && v != w :: s.pending[v].key != s.pending[w].key)
  }

  lemma StepKeepsCurrent(s: State, e: Event)
    requires Current(s) && Apart(s, e)
    ensures Current(Step(s, e)) && Harmless(s, e)
  {
    hide SysConfigKey;
  }

  lemma {:induction false} ApartStaysCurrent(s: State, es: seq<Event>)
    requires s.pending == map[] && AllApart(s, es)
    ensures Current(Run(s, es)) && AllHarmless(s, es)
  {
    hide Step, Harmless, Apart;
    if es != [] {
      var init := es[..|es| - 1];
      ApartStaysCurrent(s, init);
      StepKeepsCurrent(Run(s, init), es[|es| - 1]);
    }
  }

  /**
   * Where calls on one key do not overlap and no `set` stops after its commit, the cache never
   * differs from the table on a key no `set` is in the middle of, in any interleaving across keys.
   */
  lemma ApartIsFaithful(s: State, es: seq<Event>)
    requires s.pending == map[] && Consistent(s.config) && AllApart(s, es)
    ensures AlwaysFaithful(s, es)
    ensures Run(s, es).pending == map[] ==> Consistent(Run(s, es).config)
  {
    hide AllApart, AllHarmless, Step;
    assert Faithful(s);
    ApartStaysCurrent(s, es);
    FaithfulIffHarmless(s, es);
    if Run(s, es).pending == map[] {
      FaithfulAtRest(Run(s, es));
    }
  }

  lemma FaithfulAtRest(s: State)
    requires Faithful(s) && s.pending == map[]
    ensures Consistent(s.config)
  {
    forall key | SysConfigKey(key) in s.config.cache
      ensures TableValue(s.config, key) == Some(s.config.cache[SysConfigKey(key)])
    {
      assert FaithfulAt(s, key);
    }
  }

  // ---------------------------------------------------------------- the three ways it goes wrong

  /** A read overtaken by a whole `set` fills in what it had selected: right only if the two texts are equal. */
  lemma OvertakenRead(c: Config, key: string, read: string, written: string)
    requires CachedValue(c, key).None? && TableValue(c, key) == Some(read)
    ensures var s1 := Step(Step(State(c, map[]), BeginGet(0, key)), Continue(0));
            var s2 := Step(Step(s1, BeginSet(1, key, written)), Continue(1));
            var s3 := Step(s2, Continue(0));
            s3.pending == map[] && (Agrees(s3.config, key) <==> read == written)
  {
    hide SysConfigKey;
  }

  /** Two `set`s that cache in the other order than they commit. */
  lemma CrossedWrites(c: Config, key: string, a: string, b: string)
    ensures var s1 := Step(Step(State(c, map[]), BeginSet(0, key, a)), BeginSet(1, key, b));
            var s2 := Step(Step(s1, Continue(1)), Continue(0));
            s2.pending == map[] && (Agrees(s2.config, key) <==> a == b)
  {
    hide SysConfigKey;
  }

  /** A `set` that stops between commit and cache: right only if nothing, or the same text, was cached. */
  lemma StoppedWrite(c: Config, key: string, value: string)
    ensures var s1 := Step(Step(State(c, map[]), BeginSet(0, key, value)), Stop(0));
            s1.pending == map[] &&
            (Agrees(s1.config, key) <==> CachedValue(c, key).None? || CachedValue(c, key) == Some(value))
  {
    hide SysConfigKey;
  }

  // ---------------------------------------------------------------- refinement of whole calls

  /** A call that runs undisturbed does what the whole call does. */
  lemma UndisturbedCalls(c: Config, key: string, value: string)
    ensures Step(Step(State(c, map[]), BeginSet(0, key, value)), Continue(0)) == State(WriteThrough(c, key, value), map[])
    ensures Step(Step(Step(State(c, map[]), BeginGet(0, key)), Continue(0)), Continue(0)) ==
              State(ReadThrough(c, key).0, map[])
  {
    hide SysConfigKey;
    if CachedValue(c, key).Some? {
      assert c.cache[SysConfigKey(key) := CachedValue(c, key).value] == c.cache;
    }
  }
}
