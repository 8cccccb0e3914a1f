/** Start-up seeding of robot types by several processes at once. */
module Seeding {
  import opened Wrappers

  datatype RobotType = RobotType(name: string, rcsTaskType: string, description: Option<string>)

  const DEFAULT_ROBOT_TYPES: seq<RobotType> := [
    RobotType("LMR", "PF-LMR-COMMON", Some("Light Mobile Robot")),
    RobotType("FMR", "PF-FMR-COMMON", Some("Forklift Mobile Robot")),
    RobotType("CT7", "PF-CTU-COMMON", Some("Container 7-tier"))]

  function Names(rows: seq<RobotType>): set<string> {
    set r | r in rows :: r.name
  }

  /** The unique column. */
  predicate UniqueNames(rows: seq<RobotType>) {
    forall i, j | 0 <= i < j < |rows| :: rows[i].name != rows[j].name
  }

  /** The defaults a process adds, given the names it has read. */
  function Missing(specs: seq<RobotType>, existing: set<string>): seq<RobotType> {
    if specs == [] then []
    else
      Missing(specs[..|specs| - 1], existing) +
      if specs[|specs| - 1].name in existing then [] else [specs[|specs| - 1]]
  }

  /** A process has yet to read, has read, has returned, or has failed with nothing committed. */
  datatype Seeder = Ready | HasRead(existing: set<string>) | Returned | Failed

  datatype State = State(rows: seq<RobotType>, seeders: seq<Seeder>)

  datatype Event = Advance(seeder: nat, dbUp: bool) | Crash(seeder: nat)

  /** Read the names, or commit all missing rows at once or none. */
  function Act(rows: seq<RobotType>, p: Seeder, dbUp: bool): (seq<RobotType>, Seeder) {
    match p
    case Ready => (rows, HasRead(Names(rows)))
    case HasRead(existing) =>
      var added := Missing(DEFAULT_ROBOT_TYPES, existing);
      if added == [] then (rows, Returned)
      else if dbUp && UniqueNames(rows + added) then (rows + added, Returned)
      else (rows, Failed)
    case _ => (rows, p)
  }

  function Step(s: State, e: Event): State {
    if e.seeder >= |s.seeders| then s
    else if e.Crash? then
      if s.seeders[e.seeder].Returned? then s else s.(seeders := s.seeders[e.seeder := Failed])
    else
      var (rows, p) := Act(s.rows, s.seeders[e.seeder], e.dbUp);
      State(rows, s.seeders[e.seeder := p])
  }

  function Run(s: State, es: seq<Event>): State {
    if es == [] then s else Step(Run(s, es[..|es| - 1]), es[|es| - 1])
  }

  // ---------------------------------------------------------------- safety

  lemma {:induction false} MissingCovers(specs: seq<RobotType>, existing: set<string>)
    ensures Names(specs) <= existing + Names(Missing(specs, existing))
  {
    if specs != [] {
      var init, last := specs[..|specs| - 1], specs[|specs| - 1];
      MissingCovers(init, existing);
      forall n | n in Names(specs)
        ensures n in existing + Names(Missing(specs, existing))
      {
        var r :| r in specs && r.name == n;
        if r in init {
          assert n in Names(init);
          if n !in existing {
            var m :| m in Missing(init, existing) && m.name == n;
            assert m in Missing(specs, existing);
          }
        } else {
          assert r == last;
        }
      }
    }
  }

  lemma NamesGrow(rows: seq<RobotType>, added: seq<RobotType>)
    ensures Names(rows + added) == Names(rows) + Names(added)
  {
  }

  /** What a process knows is still true, and whoever has returned has left all defaults behind. */
  predicate SeederSound(rows: seq<RobotType>, p: Seeder) {
    && (p.HasRead? ==> p.existing <= Names(rows))
    && (p.Returned? ==> Names(DEFAULT_ROBOT_TYPES) <= Names(rows))
  }

  predicate Sound(s: State) {
    UniqueNames(s.rows) && forall i | 0 <= i < |s.seeders| :: SeederSound(s.rows, s.seeders[i])
  }

  lemma ActKeepsSound(rows: seq<RobotType>, p: Seeder, dbUp: bool)
    requires UniqueNames(rows) && SeederSound(rows, p)
    ensures var (rows', p') := Act(rows, p, dbUp);
            UniqueNames(rows') && rows <= rows' && SeederSound(rows', p')
  {
    hide Names, Missing;
    if p.HasRead? {
      var added := Missing(DEFAULT_ROBOT_TYPES, p.existing);
      MissingCovers(DEFAULT_ROBOT_TYPES, p.existing);
      NamesGrow(rows, added);
      if added == [] {
        assert rows + added == rows;
      }
    }
  }

  lemma StepKeepsSound(s: State, e: Event)
    requires Sound(s)
    ensures Sound(Step(s, e)) && s.rows <= Step(s, e).rows
    ensures |Step(s, e).seeders| == |s.seeders|
    ensures forall i | 0 <= i < |s.seeders| && s.seeders[i].Returned? :: Step(s, e).seeders[i].Returned?
  {
    hide Names, Act;
    if e.seeder < |s.seeders| && e.Advance? {
      ActKeepsSound(s.rows, s.seeders[e.seeder], e.dbUp);
      ReturnedStays(s.rows, s.seeders[e.seeder], e.dbUp);
      var s' := Step(s, e);
      NamesGrow(s.rows, s'.rows[|s.rows|..]);
      assert s.rows + s'.rows[|s.rows|..] == s'.rows;
    }
  }

  lemma ReturnedStays(rows: seq<RobotType>, p: Seeder, dbUp: bool)
    ensures p.Returned? ==> Act(rows, p, dbUp) == (rows, p)
  {
  }

  /**
   * Concurrent seeding: for any number of processes and any interleaving, the rows that were there
   * stay first and untouched, and once any process has returned every default name is present
   * exactly once, for ever.
   */
  lemma {:induction false} SeedingIsSafe(s: State, es: seq<Event>)
    requires UniqueNames(s.rows) && forall p | p in s.seeders :: p.Ready?
    ensures s.rows <= Run(s, es).rows
    ensures Sound(Run(s, es)) && |Run(s, es).seeders| == |s.seeders|
    ensures forall n | 0 <= n <= |es| :: Run(s, es[..n]).rows <= Run(s, es).rows
  {
    hide Sound, Step;
    if es == [] {
      InitiallySound(s);
    } else {
      var init := es[..|es| - 1];
      SeedingIsSafe(s, init);
      StepKeepsSound(Run(s, init), es[|es| - 1]);
      forall n | 0 <= n <= |es|
        ensures Run(s, es[..n]).rows <= Run(s, es).rows
      {
        if n < |es| {
          assert es[..n] == init[..n];
        } else {
          assert es[..n] == es;
        }
      }
    }
  }

  lemma InitiallySound(s: State)
    requires UniqueNames(s.rows) && forall p | p in s.seeders :: p.Ready?
    ensures Sound(s)
  {
    assert forall i | 0 <= i < |s.seeders| :: s.seeders[i] in s.seeders;
  }

  lemma {:induction false} MissingAreSpecs(specs: seq<RobotType>, existing: set<string>)
    ensures forall r :: r in Missing(specs, existing) <==> r in specs && r.name !in existing
  {
    if specs != [] {
      MissingAreSpecs(specs[..|specs| - 1], existing);
    }
  }

  lemma StepAddsDefaults(s: State, e: Event)
    ensures forall k | |s.rows| <= k < |Step(s, e).rows| :: Step(s, e).rows[k] in DEFAULT_ROBOT_TYPES
  {
    hide Missing, Names, UniqueNames;
    if e.seeder < |s.seeders| && s.seeders[e.seeder].HasRead? {
      MissingAreSpecs(DEFAULT_ROBOT_TYPES, s.seeders[e.seeder].existing);
    }
  }

  /** Every row a run adds is one of the defaults, type and description included. */
  lemma {:induction false} OnlyDefaultsAreAdded(s: State, es: seq<Event>)
    requires UniqueNames(s.rows) && forall p | p in s.seeders :: p.Ready?
    ensures forall k | |s.rows| <= k < |Run(s, es).rows| :: Run(s, es).rows[k] in DEFAULT_ROBOT_TYPES
  {
    hide Step, Sound;
    if es != [] {
      var init := es[..|es| - 1];
      OnlyDefaultsAreAdded(s, init);
      SeedingIsSafe(s, init);
      StepKeepsSound(Run(s, init), es[|es| - 1]);
      StepAddsDefaults(Run(s, init), es[|es| - 1]);
    }
  }

  /** How many rows carry a name. */
  function Occurrences(rows: seq<RobotType>, name: string): nat {
    if rows == [] then 0
    else Occurrences(rows[..|rows| - 1], name) + if rows[|rows| - 1].name == name then 1 else 0
  }

  lemma LastNameIsNew(rows: seq<RobotType>)
    requires UniqueNames(rows) && rows != []
    ensures rows[|rows| - 1].name !in Names(rows[..|rows| - 1])
    ensures Names(rows) == Names(rows[..|rows| - 1]) + {rows[|rows| - 1].name}
  {
    var init, last := rows[..|rows| - 1], rows[|rows| - 1];
    assert forall k | 0 <= k < |init| :: init[k].name != last.name;
    assert rows == init + [last];
    NamesGrow(init, [last]);
    assert Names([last]) == {last.name};
  }

  lemma {:induction false} PresentOnce(rows: seq<RobotType>, name: string)
    requires UniqueNames(rows)
    ensures Occurrences(rows, name) == if name in Names(rows) then 1 else 0
  {
    if rows == [] {
      assert Names(rows) == {};
    } else {
      hide Names;
      PresentOnce(rows[..|rows| - 1], name);
      LastNameIsNew(rows);
    }
  }

  /** Once any process has returned, each default is there exactly once, at that time and ever after. */
  lemma DefaultsPresentForEver(s: State, es: seq<Event>, n: nat, i: nat, d: RobotType)
    requires UniqueNames(s.rows) && forall p | p in s.seeders :: p.Ready?
    requires n <= |es| && i < |Run(s, es[..n]).seeders| && Run(s, es[..n]).seeders[i].Returned?
    requires d in DEFAULT_ROBOT_TYPES
    ensures Occurrences(Run(s, es).rows, d.name) == 1
    ensures d.name !in Names(s.rows) ==> d in Run(s, es).rows
  {
    hide Occurrences, Names;
    SeedingIsSafe(s, es);
    SeedingIsSafe(s, es[..n]);
    var then_, now := Run(s, es[..n]).rows, Run(s, es).rows;
    assert SeederSound(then_, Run(s, es[..n]).seeders[i]);
    NamesGrow(then_, now[|then_|..]);
    assert then_ + now[|then_|..] == now;
    DefaultNamed(d);
    PresentOnce(now, d.name);
    OnlyDefaultsAreAdded(s, es);
    NamedRow(now, d.name);
    var k :| 0 <= k < |now| && now[k].name == d.name;
    if d.name !in Names(s.rows) {
      RowsAreNamed(s.rows, now[k]);
      DefaultByName(now[k], d);
    }
  }

  lemma NamedRow(rows: seq<RobotType>, name: string)
    requires name in Names(rows)
    ensures exists k :: 0 <= k < |rows| && rows[k].name == name
  {
  }

  lemma RowsAreNamed(rows: seq<RobotType>, r: RobotType)
    ensures r in rows ==> r.name in Names(rows)
  {
  }

  lemma DefaultsAreUnique()
    ensures UniqueNames(DEFAULT_ROBOT_TYPES)
  {
    assert DEFAULT_ROBOT_TYPES[0].name[0] == 'L' && DEFAULT_ROBOT_TYPES[1].name[0] == 'F';
    assert DEFAULT_ROBOT_TYPES[2].name[0] == 'C';
  }

  /** The defaults have different names. */
  lemma DefaultByName(a: RobotType, b: RobotType)
    requires a in DEFAULT_ROBOT_TYPES && b in DEFAULT_ROBOT_TYPES && a.name == b.name
    ensures a == b
  {
    assert DEFAULT_ROBOT_TYPES[0].name[0] == 'L' && DEFAULT_ROBOT_TYPES[1].name[0] == 'F';
    assert DEFAULT_ROBOT_TYPES[2].name[0] == 'C';
  }

  lemma DefaultNamed(d: RobotType)
    requires d in DEFAULT_ROBOT_TYPES
    ensures d.name in Names(DEFAULT_ROBOT_TYPES)
  {
  }

  // ---------------------------------------------------------------- the seed function

  lemma MissingNext(specs: seq<RobotType>, i: nat, existing: set<string>)
    requires i < |specs|
    ensures Missing(specs[..i + 1], existing) ==
              Missing(specs[..i], existing) + if specs[i].name in existing then [] else [specs[i]]
    ensures Missing(specs[..0], existing) == []
  {
    assert specs[..i + 1][..i] == specs[..i];
  }

  /** What a table gains by the defaults it lacks. */
  lemma SeedingAdds(rows: seq<RobotType>)
    requires UniqueNames(rows)
    ensures var added := Missing(DEFAULT_ROBOT_TYPES, Names(rows));
            && UniqueNames(rows + added)
            && Names(rows + added) == Names(rows) + Names(DEFAULT_ROBOT_TYPES)
            && forall d | d in DEFAULT_ROBOT_TYPES && d.name !in Names(rows) :: d in added
  {
    var added := Missing(DEFAULT_ROBOT_TYPES, Names(rows));
    DefaultsAreUnique();
    MissingIsNew(rows, DEFAULT_ROBOT_TYPES);
    MissingCovers(DEFAULT_ROBOT_TYPES, Names(rows));
    MissingAreSpecs(DEFAULT_ROBOT_TYPES, Names(rows));
    NamesGrow(rows, added);
    AddedAreDefaults(added);
  }

  lemma AddedAreDefaults(added: seq<RobotType>)
    requires forall r | r in added :: r in DEFAULT_ROBOT_TYPES
    ensures Names(added) <= Names(DEFAULT_ROBOT_TYPES)
  {
  }

  /** The three robot types a fresh installation has. */
  ghost predicate Defaults(rows: seq<RobotType>) {
    && |rows| == 3
    && rows[0] == RobotType("LMR", "PF-LMR-COMMON", Some("Light Mobile Robot"))
    && rows[1] == RobotType("FMR", "PF-FMR-COMMON", Some("Forklift Mobile Robot"))
    && rows[2] == RobotType("CT7", "PF-CTU-COMMON", Some("Container 7-tier"))
  }

  lemma SeedsOfEmpty()
    ensures Names([]) == {}
    ensures Missing(DEFAULT_ROBOT_TYPES, {}) == DEFAULT_ROBOT_TYPES && Defaults(DEFAULT_ROBOT_TYPES)
  {
    NothingMissingFromNone(DEFAULT_ROBOT_TYPES);
  }

  lemma {:induction false} NothingMissingFromNone(specs: seq<RobotType>)
    ensures Missing(specs, {}) == specs
  {
    if specs != [] {
      NothingMissingFromNone(specs[..|specs| - 1]);
    }
  }

  class RobotTypeTable {
    var rows: seq<RobotType>

    constructor ()
      ensures rows == []
    {
      rows := [];
    }

    /** `seed_robot_types` without interference. `dbUp` is whether the commit goes through. */
    method SeedRobotTypes(dbUp: bool) returns (returned: bool)
      requires UniqueNames(rows)
      modifies this
      ensures UniqueNames(rows) && old(rows) <= rows
      ensures returned ==> rows == old(rows) + Missing(DEFAULT_ROBOT_TYPES, Names(old(rows)))
      ensures returned ==> Names(rows) == Names(old(rows)) + Names(DEFAULT_ROBOT_TYPES)
      ensures forall d | d in DEFAULT_ROBOT_TYPES && returned && d.name !in Names(old(rows)) :: d in rows
      ensures returned && old(rows) == [] ==> Defaults(rows)
      ensures !returned ==> rows == old(rows)
      ensures Act(old(rows), Ready, dbUp) == (old(rows), HasRead(Names(old(rows))))
      ensures Act(old(rows), HasRead(Names(old(rows))), dbUp) == (rows, if returned then Returned else Failed)
      ensures dbUp ==> returned
    {
      SeedingAdds(rows);
      SeedsOfEmpty();
      hide Names, Missing, Defaults;
      var existing := Names(rows);
      var pending: seq<RobotType> := [];
      MissingNext(DEFAULT_ROBOT_TYPES, 0, existing);
      for i := 0 to |DEFAULT_ROBOT_TYPES|
        invariant rows == old(rows)
        invariant pending == Missing(DEFAULT_ROBOT_TYPES[..i], existing)
      {
        MissingNext(DEFAULT_ROBOT_TYPES, i, existing);
        var spec := DEFAULT_ROBOT_TYPES[i];
        if spec.name in existing {
          continue;
        }
        pending := pending + [spec];
      }
      assert DEFAULT_ROBOT_TYPES[..|DEFAULT_ROBOT_TYPES|] == DEFAULT_ROBOT_TYPES;
      if pending != [] {
        if !dbUp {
          return false;
        }
        rows := rows + pending;
      } else {
        assert rows + pending == rows;
      }
      returned := true;
    }
  }

  lemma {:induction false} MissingIsNew(rows: seq<RobotType>, specs: seq<RobotType>)
    requires UniqueNames(rows) && UniqueNames(specs)
    ensures UniqueNames(rows + Missing(specs, Names(rows)))
    ensures forall r | r in Missing(specs, Names(rows)) :: r in specs
  {
    if specs == [] {
      assert rows + Missing(specs, Names(rows)) == rows;
    } else {
      var init, last := specs[..|specs| - 1], specs[|specs| - 1];
      MissingIsNew(rows, init);
      if last.name in Names(rows) {
        assert Missing(specs, Names(rows)) == Missing(init, Names(rows));
      } else {
        var before := rows + Missing(init, Names(rows));
        forall k | 0 <= k < |before|
          ensures before[k].name != last.name
        {
          if k < |rows| {
            assert before[k] in rows;
          } else {
            assert before[k] in Missing(init, Names(rows));
            var m :| 0 <= m < |init| && init[m] == before[k];
            assert specs[m].name != specs[|specs| - 1].name;
          }
        }
        assert rows + Missing(specs, Names(rows)) == before + [last];
      }
    }
  }
}
