/**
  The caches keyed by `id()` that hold their source weakly: a drfs spec's compiled
  variants, and a variant's bundled and guarded twins. An id is reused once its
  object is freed, so what keeps a lookup sound is that an entry is gone before
  its source's id is.
*/
module WeakCaches {
  import opened Prelude

  type Id = nat
  /** An object, by a number no other object ever has; its `id()` is another matter. */
  type Object = nat
  type Key = nat

  datatype Table = Variants | Bundled | Guarded

  /** One entry: a weak reference to the source, and the compiled objects it holds, by key. */
  datatype Entry = Entry(source: Object, compiled: map<Key, Object>)

  /** What an object was compiled from, where it was. */
  datatype Origin = Authored | CompiledFrom(table: Table, source: Object, key: Key)

  type Place = (Table, Id)

  datatype Memory = Memory(ids: map<Object, Id>, next: Object, origins: map<Object, Origin>, entries: map<Place, Entry>)
  {
    /** Whether an entry holds the object strongly, so it cannot be freed. */
    ghost predicate Held(o: Object) {
      exists p, k :: p in entries && k in entries[p].compiled && entries[p].compiled[k] == o
    }

    ghost predicate Live(o: Object) {
      o in ids && o < next && o in origins
    }

    ghost predicate Identified() {
      && (forall o :: o in ids ==> Live(o))
      && (forall o, p :: o in ids && p in ids && ids[o] == ids[p] ==> o == p)
    }

    /** An entry sits at the id of its source, which is live, and holds what was compiled from it. */
    ghost predicate Sound(p: Place, e: Entry) {
      && e.source in ids && ids[e.source] == p.1
      && forall k :: k in e.compiled ==> Live(e.compiled[k]) && origins[e.compiled[k]] == CompiledFrom(p.0, e.source, k)
    }

    ghost predicate Valid() {
      Identified() && forall p :: p in entries ==> Sound(p, entries[p])
    }
  }

  /** What can happen to the process between two reads of a cache: an object made at a free id, an object
      nothing holds freed, and a lookup, which may compile into a new object at a free id. */
  datatype Step = Allocate(id: Id) | Collect(obj: Object) | Lookup(table: Table, source: Object, key: Key, free: Id)

  ghost predicate Free(m: Memory, id: Id) {
    forall o :: o in m.ids ==> m.ids[o] != id
  }

  ghost predicate Possible(m: Memory, step: Step) {
    match step
    case Allocate(id) => Free(m, id)
    case Collect(obj) => obj in m.ids && !m.Held(obj)
    case Lookup(_, source, _, free) => source in m.ids && Free(m, free)
  }

  /** What the cache holds for a live source under a key. */
  function Remembered(m: Memory, table: Table, source: Object, key: Key): Option<Object> {
    if source !in m.ids then None
    else
      var place := (table, m.ids[source]);
      if place in m.entries && key in m.entries[place].compiled then Some(m.entries[place].compiled[key]) else None
  }

  /** The compiled object a lookup returns. Nothing compares the entry's source with the one asked for. */
  function Answer(m: Memory, table: Table, source: Object, key: Key): Object {
    if Remembered(m, table, source, key).Some? then Remembered(m, table, source, key).value else m.next
  }

  function Next(m: Memory, step: Step): Memory
    requires step.Lookup? ==> step.source in m.ids
  {
    match step
    case Allocate(id) =>
      m.(ids := m.ids[m.next := id], next := m.next + 1, origins := m.origins[m.next := Authored])
    case Collect(obj) =>
      m.(ids := m.ids - {obj}, entries := map p | p in m.entries && m.entries[p].source != obj :: m.entries[p])
    case Lookup(table, source, key, free) =>
      var place := (table, m.ids[source]);
      var held := if place in m.entries then m.entries[place] else Entry(source, map[]);
      if key in held.compiled then m
      else
        Memory(m.ids[m.next := free], m.next + 1,
               m.origins[m.next := CompiledFrom(table, source, key)],
               m.entries[place := Entry(held.source, held.compiled[key := m.next])])
  }

  /** A lookup answers a variant compiled from that very source under that key, and every step keeps that. */
  lemma StepKeepsValid(m: Memory, step: Step)
    requires m.Valid() && Possible(m, step)
    ensures Next(m, step).Valid()
    ensures step.Lookup? ==>
      var answer := Answer(m, step.table, step.source, step.key);
      && Remembered(Next(m, step), step.table, step.source, step.key) == Some(answer)
      && Next(m, step).origins[answer] == CompiledFrom(step.table, step.source, step.key)
  {
    var n := Next(m, step);
    match step
    case Allocate(_) =>
      assert forall p :: p in n.entries ==> m.Sound(p, m.entries[p]);
    case Collect(dead) =>
      forall p | p in n.entries ensures n.Sound(p, n.entries[p]) {
        assert m.Sound(p, m.entries[p]);
        forall k | k in n.entries[p].compiled ensures n.Live(n.entries[p].compiled[k]) {
          assert m.Held(m.entries[p].compiled[k]);
        }
      }
    case Lookup(table, source, key, _) => LookupKeepsValid(m, step);
  }

  /** The entry at a live source's id is that source's: ids are told apart among the live. */
  lemma EntryIsTheSources(m: Memory, table: Table, source: Object)
    requires m.Valid() && source in m.ids && (table, m.ids[source]) in m.entries
    ensures m.Sound((table, m.ids[source]), m.entries[(table, m.ids[source])])
    ensures m.entries[(table, m.ids[source])].source == source
  {
  }

  /** One more live object leaves what is sound so. */
  lemma StaysSound(m: Memory, n: Memory, p: Place, e: Entry)
    requires m.Identified() && m.Sound(p, e)
    requires forall o :: m.Live(o) ==> n.Live(o) && n.ids[o] == m.ids[o] && n.origins[o] == m.origins[o]
    ensures n.Sound(p, e)
  {
    assert m.Live(e.source);
  }

  lemma LookupKeepsValid(m: Memory, step: Step)
    requires m.Valid() && step.Lookup? && Possible(m, step)
    ensures Next(m, step).Valid()
    ensures var answer := Answer(m, step.table, step.source, step.key);
            && Remembered(Next(m, step), step.table, step.source, step.key) == Some(answer)
            && Next(m, step).origins[answer] == CompiledFrom(step.table, step.source, step.key)
  {
    var place := (step.table, m.ids[step.source]);
    if place in m.entries {
      EntryIsTheSources(m, step.table, step.source);
    }
    if Remembered(m, step.table, step.source, step.key).None? {
      CompilingKeepsSound(m, step);
      CompilingKeepsIdentified(m, step);
    }
  }

  lemma CompilingKeepsIdentified(m: Memory, step: Step)
    requires m.Identified() && step.Lookup? && Possible(m, step)
             && Remembered(m, step.table, step.source, step.key).None?
    ensures Next(m, step).Identified()
  {
  }

  lemma CompilingKeepsSound(m: Memory, step: Step)
    requires m.Valid() && step.Lookup? && Possible(m, step) && Remembered(m, step.table, step.source, step.key).None?
    ensures var n := Next(m, step); forall p :: p in n.entries ==> n.Sound(p, n.entries[p])
  {
    var n, place := Next(m, step), (step.table, m.ids[step.source]);
    if place in m.entries {
      EntryIsTheSources(m, step.table, step.source);
      StaysSound(m, n, place, m.entries[place]);
    }
    forall p | p in n.entries ensures n.Sound(p, n.entries[p]) {
      if p != place {
        StaysSound(m, n, p, m.entries[p]);
      }
    }
  }

  /** What is held for a source stays held under every step but the source's own end. */
  lemma StepRemembers(m: Memory, step: Step, table: Table, source: Object, key: Key)
    requires m.Valid() && Possible(m, step) && Remembered(m, table, source, key).Some?
    requires step != Collect(source)
    ensures Remembered(Next(m, step), table, source, key) == Remembered(m, table, source, key)
  {
  }

  // --- whole runs

  ghost predicate Runs(m: Memory, steps: seq<Step>)
    decreases |steps|
  {
    steps == [] || (Possible(m, steps[0]) && Runs(Next(m, steps[0]), steps[1..]))
  }

  ghost function After(m: Memory, steps: seq<Step>): Memory
    requires Runs(m, steps)
    decreases |steps|
  {
    if steps == [] then m else After(Next(m, steps[0]), steps[1..])
  }

  /** An object freed is never live again, whatever object takes its id. */
  lemma {:induction false} FreedForGood(m: Memory, steps: seq<Step>, o: Object)
    requires m.Valid() && Runs(m, steps) && o < m.next
    ensures After(m, steps).Valid()
    ensures o in After(m, steps).ids ==> o in m.ids
    decreases |steps|
  {
    if steps != [] {
      StepKeepsValid(m, steps[0]);
      FreedForGood(Next(m, steps[0]), steps[1..], o);
    }
  }

  /** Over every run in which the source still lives at the end, it has the compiled object it had. */
  lemma {:induction false} SameWhileItLives(m: Memory, steps: seq<Step>, table: Table, source: Object, key: Key)
    requires m.Valid() && Runs(m, steps) && Remembered(m, table, source, key).Some?
    requires source in After(m, steps).ids
    ensures Remembered(After(m, steps), table, source, key) == Remembered(m, table, source, key)
    decreases |steps|
  {
    if steps != [] {
      var next := Next(m, steps[0]);
      StepKeepsValid(m, steps[0]);
      FreedForGood(next, steps[1..], source);
      assert source in m.ids && source < m.next;
      StepRemembers(m, steps[0], table, source, key);
      SameWhileItLives(next, steps[1..], table, source, key);
    }
  }

  /** Every lookup of every run, two of one source and key included: each answers an object compiled from
      that source under that key, and the second answers the first's while the source lives, whatever was
      allocated, freed and looked up between them. */
  lemma LookupsAreSound(m: Memory, table: Table, source: Object, key: Key, free: Id, between: seq<Step>)
    requires m.Valid() && Possible(m, Lookup(table, source, key, free))
    requires Runs(Next(m, Lookup(table, source, key, free)), between)
    ensures var first := Next(m, Lookup(table, source, key, free));
            var then' := After(first, between);
            && first.origins[Answer(m, table, source, key)] == CompiledFrom(table, source, key)
            && (source in then'.ids ==> Answer(then', table, source, key) == Answer(m, table, source, key))
  {
    var first := Next(m, Lookup(table, source, key, free));
    StepKeepsValid(m, Lookup(table, source, key, free));
    if source in After(first, between).ids {
      SameWhileItLives(first, between, table, source, key);
    }
  }

  lemma WhatALiveSourceMadeLives(m: Memory, table: Table, source: Object, key: Key)
    requires m.Valid() && Remembered(m, table, source, key).Some?
    ensures Remembered(m, table, source, key).value in m.ids
  {
    assert m.Sound((table, m.ids[source]), m.entries[(table, m.ids[source])]);
  }

  /** While a source lives, what it made is the same object, and lives. */
  lemma MadeLivesWithItsSource(m: Memory, steps: seq<Step>, table: Table, source: Object, key: Key)
    requires m.Valid() && Runs(m, steps) && Remembered(m, table, source, key).Some?
    requires source in After(m, steps).ids
    ensures Remembered(After(m, steps), table, source, key) == Remembered(m, table, source, key)
    ensures Remembered(m, table, source, key).value in After(m, steps).ids
  {
    SameWhileItLives(m, steps, table, source, key);
    FreedForGood(m, steps, source);
    WhatALiveSourceMadeLives(After(m, steps), table, source, key);
  }

  /** A variant lives while its source does, so a twin of it, guarded or bundled, is the same object for as long as
      the drfs spec lives. */
  lemma TwinsLiveWithTheSpec(m: Memory, steps: seq<Step>, spec: Object, key: Key, twin: Table, twinKey: Key)
    requires m.Valid() && Runs(m, steps) && spec in After(m, steps).ids
    requires Remembered(m, Variants, spec, key).Some?
    requires Remembered(m, twin, Remembered(m, Variants, spec, key).value, twinKey).Some?
    ensures var variant := Remembered(m, Variants, spec, key).value;
            && Remembered(After(m, steps), Variants, spec, key) == Some(variant)
            && variant in After(m, steps).ids
            && Remembered(After(m, steps), twin, variant, twinKey) == Remembered(m, twin, variant, twinKey)
  {
    MadeLivesWithItsSource(m, steps, Variants, spec, key);
    SameWhileItLives(m, steps, twin, Remembered(m, Variants, spec, key).value, twinKey);
  }

  /** And so is a twin of that twin, as the guarded twin of a bundled one is. */
  lemma TwinsOfTwinsLiveWithTheSpec(m: Memory, steps: seq<Step>, spec: Object, variant: Object, first: Object,
                                    second: Object, key: Key, twin: Table, twinKey: Key, next: Table, nextKey: Key)
    requires m.Valid() && Runs(m, steps) && spec in After(m, steps).ids
    requires Remembered(m, Variants, spec, key) == Some(variant)
    requires Remembered(m, twin, variant, twinKey) == Some(first)
    requires Remembered(m, next, first, nextKey) == Some(second)
    ensures Remembered(After(m, steps), Variants, spec, key) == Some(variant)
    ensures Remembered(After(m, steps), twin, variant, twinKey) == Some(first)
    ensures Remembered(After(m, steps), next, first, nextKey) == Some(second)
    ensures {variant, first, second} <= After(m, steps).ids.Keys
  {
    MadeLivesWithItsSource(m, steps, Variants, spec, key);
    MadeLivesWithItsSource(m, steps, twin, variant, twinKey);
    MadeLivesWithItsSource(m, steps, next, first, nextKey);
  }

  /** What sits at an ending object's id is its own, so dropping whatever sits there drops its entries alone. */
  lemma OnlyItsEntriesGo(m: Memory, dead: Object)
    requires m.Valid() && dead in m.ids
    ensures var id := m.ids[dead];
            m.entries - {(Variants, id), (Bundled, id), (Guarded, id)} == Next(m, Collect(dead)).entries
  {
    var id := m.ids[dead];
    forall p | p in m.entries ensures m.entries[p].source == dead
        <==> p in {(Variants, id), (Bundled, id), (Guarded, id)} {
      assert m.Sound(p, m.entries[p]);
      assert p == (p.0, p.1) && (p.0 == Variants || p.0 == Bundled || p.0 == Guarded);
    }
  }

  // --- as it runs: module dicts, filled under a lock and emptied by a weak reference's callback

  class Process {
    var ids: map<Object, Id>
    var next: Object
    var origins: map<Object, Origin>
    var entries: map<Place, Entry>

    ghost function State(): Memory
      reads this
    {
      Memory(ids, next, origins, entries)
    }

    constructor ()
      ensures State() == Memory(map[], 0, map[], map[]) && State().Valid()
    {
      ids, next, origins, entries := map[], 0, map[], map[];
    }

    method Make(id: Id, origin: Origin) returns (obj: Object)
      requires State().Valid() && Free(State(), id)
      modifies `ids, `next, `origins
      ensures obj == old(next) && next == old(next) + 1
      ensures ids == old(ids)[obj := id] && origins == old(origins)[obj := origin]
    {
      obj := next;
      ids, next, origins := ids[obj := id], next + 1, origins[obj := origin];
    }

    method LookUp(table: Table, source: Object, key: Key, free: Id) returns (compiled: Object)
      requires State().Valid() && Possible(State(), Lookup(table, source, key, free))
      modifies this
      ensures State() == Next(old(State()), Lookup(table, source, key, free)) && State().Valid()
      ensures compiled == Answer(old(State()), table, source, key)
      ensures origins[compiled] == CompiledFrom(table, source, key)
    {
      StepKeepsValid(State(), Lookup(table, source, key, free));
      var place := (table, ids[source]);
      var held := if place in entries then entries[place] else Entry(source, map[]);
      if key in held.compiled {
        return held.compiled[key];
      }
      compiled := Make(free, CompiledFrom(table, source, key));
      entries := entries[place := Entry(held.source, held.compiled[key := compiled])];
    }

    /** An object's end: the callback of each weak reference to it drops its entry, then its id is free. */
    method End(obj: Object)
      requires State().Valid() && Possible(State(), Collect(obj))
      modifies `ids, `entries
      ensures State() == Next(old(State()), Collect(obj)) && State().Valid()
    {
      ghost var before := State();
      StepKeepsValid(before, Collect(obj));
      var id := ids[obj];
      Callback(Variants, id);
      Callback(Bundled, id);
      Callback(Guarded, id);
      ids := ids - {obj};
      OnlyItsEntriesGo(before, obj);
      assert entries == before.entries - {(Variants, id), (Bundled, id), (Guarded, id)};
    }

    /** `pop(source_id, None)`: whatever the table holds at that id. */
    method Callback(table: Table, sourceId: Id)
      modifies `entries
      ensures entries == old(entries) - {(table, sourceId)}
    {
      entries := entries - {(table, sourceId)};
    }
  }
}
