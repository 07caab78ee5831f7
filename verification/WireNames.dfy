/**
  Naming a refusal what the request called it: the names a serializer's `source=`
  changed, and an error tree renamed by them.
*/
module WireNames {
  import opened Prelude
  import opened Refusals

  /** A serializer's field, with its own fields where it is a serializer or a list of one. */
  datatype WireField = WireField(name: string, source: string, readOnly: bool, nested: seq<WireField>)

  /** The wire name of one `source`, and the names inside it where it nests any. */
  datatype Wire = Wire(name: string, nested: Option<Names>)
  datatype Names = Names(of: map<string, Wire>)

  predicate Plain(source: string) {
    '.' !in source && source != "*"
  }

  predicate Renames(f: WireField) {
    !f.readOnly && Plain(f.source)
  }

  /** Each writable field by its `source`, the first of two sharing one. */
  function WireNamesOf(fs: seq<WireField>): Names
    decreases fs, 1
  {
    NamesFrom(Names(map[]), fs)
  }

  function NamesFrom(names: Names, fs: seq<WireField>): Names
    decreases fs, 0
  {
    if fs == [] then names
    else if !Renames(fs[0]) || fs[0].source in names.of then NamesFrom(names, fs[1..])
    else NamesFrom(Names(names.of[fs[0].source := WireOf(fs[0])]), fs[1..])
  }

  function WireOf(f: WireField): (w: Wire)
    ensures w.name == f.name
    decreases f
  {
    var inside := WireNamesOf(f.nested);
    Wire(f.name, if inside.of == map[] then None else Some(inside))
  }

  /** Field names are a dict's keys. */
  ghost predicate DistinctFields(fs: seq<WireField>) {
    forall i, j :: 0 <= i < j < |fs| ==> fs[i].name != fs[j].name
  }

  ghost predicate Injective(names: Names) {
    forall s, t :: s in names.of && t in names.of && s != t ==> names.of[s].name != names.of[t].name
  }

  /** A source is named exactly where a writable field has it, after the first field that does. */
  ghost predicate NamesFirst(names: Names, fs: seq<WireField>) {
    && (forall s :: s in names.of <==> exists i :: 0 <= i < |fs| && Renames(fs[i]) && fs[i].source == s)
    && (forall s, i :: (s in names.of && 0 <= i < |fs| && Renames(fs[i]) && fs[i].source == s
          && (forall j :: 0 <= j < i ==> !(Renames(fs[j]) && fs[j].source == s))) ==> names.of[s].name == fs[i].name)
  }

  function WithField(names: Names, f: WireField): Names {
    if !Renames(f) || f.source in names.of then names else Names(names.of[f.source := WireOf(f)])
  }

  lemma NamesOneMore(names: Names, done: seq<WireField>, f: WireField)
    requires NamesFirst(names, done)
    ensures NamesFirst(WithField(names, f), done + [f])
  {
    var next, more := WithField(names, f), done + [f];
    assert forall i :: 0 <= i < |done| ==> more[i] == done[i];
    forall s
      ensures s in next.of <==> exists i :: 0 <= i < |more| && Renames(more[i]) && more[i].source == s
    {
      if s in names.of {
        var i :| 0 <= i < |done| && Renames(done[i]) && done[i].source == s;
        assert more[i] == done[i];
      } else if s in next.of {
        assert more[|done|] == f;
      }
    }
  }

  lemma {:induction false} FirstFieldNames(names: Names, done: seq<WireField>, fs: seq<WireField>)
    requires NamesFirst(names, done)
    ensures NamesFirst(NamesFrom(names, fs), done + fs)
    decreases fs
  {
    if fs == [] {
      assert done + fs == done;
    } else {
      NamesOneMore(names, done, fs[0]);
      FirstFieldNames(WithField(names, fs[0]), done + [fs[0]], fs[1..]);
      assert done + [fs[0]] + fs[1..] == done + fs;
    }
  }

  /** A field has one source, so no wire name is given to two sources. */
  lemma {:induction false} NamesStayInjective(names: Names, fs: seq<WireField>)
    requires DistinctFields(fs) && Injective(names)
    requires forall s, f :: s in names.of && f in fs ==> names.of[s].name != f.name
    ensures Injective(NamesFrom(names, fs))
    decreases fs
  {
    if fs != [] {
      assert fs[0] in fs && forall f :: f in fs[1..] ==> f in fs && f.name != fs[0].name;
      if Renames(fs[0]) && fs[0].source !in names.of {
        NamesStayInjective(Names(names.of[fs[0].source := WireOf(fs[0])]), fs[1..]);
      } else {
        NamesStayInjective(names, fs[1..]);
      }
    }
  }

  /** The sources named are exactly those of the writable fields, less a dotted one and `*`. */
  lemma NamedSourcesExactly(fs: seq<WireField>, s: string)
    ensures s in WireNamesOf(fs).of <==>
      '.' !in s && s != "*" && exists f :: f in fs && !f.readOnly && f.source == s
  {
    FirstFieldNames(Names(map[]), [], fs);
    assert [] + fs == fs;
    if f :| f in fs && !f.readOnly && f.source == s {
      var i :| 0 <= i < |fs| && fs[i] == f;
      assert Renames(fs[i]) <==> '.' !in s && s != "*";
    }
  }

  lemma WireNamesAreInjective(fs: seq<WireField>)
    requires DistinctFields(fs)
    ensures Injective(WireNamesOf(fs)) && NamesFirst(WireNamesOf(fs), fs)
  {
    NamesStayInjective(Names(map[]), fs);
    FirstFieldNames(Names(map[]), [], fs);
    assert [] + fs == fs;
  }

  // --- the error tree renamed

  function RenamedKey(names: Names, k: Key): Key {
    if k.Name? && k.text in names.of then Name(names.of[k.text].name) else k
  }

  /** A row's errors are renamed by the same names; a field's by those nested in it, where any are. */
  function RenamedValue(names: Names, e: Entry): Detail
    decreases e
  {
    if e.key.Index? then WireNamed(e.value, names)
    else if e.key.text in names.of && names.of[e.key.text].nested.Some?
    then WireNamed(e.value, names.of[e.key.text].nested.value)
    else e.value
  }

  function WireNamed(d: Detail, names: Names): Detail
    decreases d
  {
    match d
    case Table(entries) => Table(RenamedFrom([], entries, names))
    case Lines(lines) => Lines(RenamedLines(lines, names))
    case _ => d
  }

  function RenamedFrom(renamed: seq<Entry>, es: seq<Entry>, names: Names): seq<Entry>
    decreases es
  {
    if es == [] then renamed
    else RenamedFrom(Put(renamed, RenamedKey(names, es[0].key), RenamedValue(names, es[0])), es[1..], names)
  }

  function RenamedLines(lines: seq<Detail>, names: Names): seq<Detail>
    decreases lines
  {
    if lines == [] then [] else [WireNamed(lines[0], names)] + RenamedLines(lines[1..], names)
  }

  /** As it runs: a new dict filled key by key. */
  method WireNamedTable(entries: seq<Entry>, names: Names) returns (renamed: seq<Entry>)
    ensures Table(renamed) == WireNamed(Table(entries), names)
  {
    renamed := [];
    for i := 0 to |entries|
      invariant RenamedFrom(renamed, entries[i..], names) == RenamedFrom([], entries, names)
    {
      assert entries[i..][1..] == entries[i + 1..];
      renamed := Put(renamed, RenamedKey(names, entries[i].key), RenamedValue(names, entries[i]));
    }
    assert entries[|entries|..] == [];
  }

  // --- what a rename keeps

  /** Each key of `es` is renamed to a key of its own. */
  ghost predicate KeysApart(es: seq<Entry>, names: Names) {
    forall i, j :: 0 <= i < j < |es| ==> RenamedKey(names, es[i].key) != RenamedKey(names, es[j].key)
  }

  lemma {:induction false} PutSize(es: seq<Entry>, k: Key, v: Detail)
    ensures |Put(es, k, v)| == if HasKey(es, k) then |es| else |es| + 1
  {
    if es != [] && es[0].key != k {
      PutSize(es[1..], k, v);
    }
  }

  /** What ends up under `q`: the value of the last entry renamed to it, else what was there. */
  function LastRenamed(was: Option<Detail>, es: seq<Entry>, names: Names, q: Key): Option<Detail>
    decreases es
  {
    if es == [] then was
    else LastRenamed(if RenamedKey(names, es[0].key) == q then Some(RenamedValue(names, es[0])) else was, es[1..],
                     names, q)
  }

  lemma {:induction false} LastWins(renamed: seq<Entry>, es: seq<Entry>, names: Names, q: Key)
    ensures Get(RenamedFrom(renamed, es, names), q) == LastRenamed(Get(renamed, q), es, names, q)
    decreases es
  {
    if es != [] {
      var k, v := RenamedKey(names, es[0].key), RenamedValue(names, es[0]);
      GetOfPut(renamed, k, v, q);
      LastWins(Put(renamed, k, v), es[1..], names, q);
    }
  }

  lemma {:induction false} LastOfApart(was: Option<Detail>, es: seq<Entry>, names: Names, i: nat)
    requires KeysApart(es, names) && i < |es|
    ensures LastRenamed(was, es, names, RenamedKey(names, es[i].key)) == Some(RenamedValue(names, es[i]))
    decreases es
  {
    var q := RenamedKey(names, es[i].key);
    if i == 0 {
      LastUntouched(Some(RenamedValue(names, es[0])), es[1..], names, q);
    } else {
      LastOfApart(was, es[1..], names, i - 1);
    }
  }

  lemma {:induction false} LastUntouched(was: Option<Detail>, es: seq<Entry>, names: Names, q: Key)
    requires forall i :: 0 <= i < |es| ==> RenamedKey(names, es[i].key) != q
    ensures LastRenamed(was, es, names, q) == was
    decreases es
  {
    if es != [] {
      LastUntouched(was, es[1..], names, q);
    }
  }

  lemma {:induction false} RenamedSize(renamed: seq<Entry>, es: seq<Entry>, names: Names)
    ensures |RenamedFrom(renamed, es, names)| <= |renamed| + |es|
    ensures |RenamedFrom(renamed, es, names)| == |renamed| + |es| <==>
      KeysApart(es, names) && forall i :: 0 <= i < |es| ==> !HasKey(renamed, RenamedKey(names, es[i].key))
    decreases es
  {
    if es != [] {
      var k, v := RenamedKey(names, es[0].key), RenamedValue(names, es[0]);
      PutSize(renamed, k, v);
      RenamedSize(Put(renamed, k, v), es[1..], names);
      forall i | 0 < i < |es|
        ensures HasKey(Put(renamed, k, v), RenamedKey(names, es[i].key))
           <==> HasKey(renamed, RenamedKey(names, es[i].key)) || RenamedKey(names, es[i].key) == k
      {
        GetOfPut(renamed, k, v, RenamedKey(names, es[i].key));
        GetNeedsKey(renamed, RenamedKey(names, es[i].key));
        GetNeedsKey(Put(renamed, k, v), RenamedKey(names, es[i].key));
      }
      assert forall i :: 0 < i < |es| ==> es[1..][i - 1] == es[i];
      assert forall i :: 0 <= i < |es| - 1 ==> es[1..][i] == es[i + 1];
    }
  }

  /** The keys a level refuses whose wire name another key of the level already is: named both ways. */
  ghost predicate NamedBothWays(es: seq<Entry>, names: Names) {
    exists i, j :: 0 <= i < |es| && 0 <= j < |es| && i != j
      && es[i].key.Name? && es[i].key.text in names.of
      && es[j].key == Name(names.of[es[i].key.text].name)
      && RenamedKey(names, es[j].key) == es[j].key
  }

  lemma {:induction false} DictKeysDiffer(es: seq<Entry>, i: nat, j: nat)
    requires IsDict(es) && i < j < |es|
    ensures es[i].key != es[j].key
  {
    if i == 0 {
      GetNeedsKey(es[1..], es[0].key);
      assert es[1..][j - 1] == es[j];
    } else {
      DictKeysDiffer(es[1..], i - 1, j - 1);
    }
  }

  lemma ApartExactlyWhereNamedOnce(es: seq<Entry>, names: Names)
    requires IsDict(es) && Injective(names)
    ensures KeysApart(es, names) <==> !NamedBothWays(es, names)
  {
    forall i, j | 0 <= i < j < |es| ensures es[i].key != es[j].key {
      DictKeysDiffer(es, i, j);
    }
    if !KeysApart(es, names) {
      var i, j :| 0 <= i < j < |es| && RenamedKey(names, es[i].key) == RenamedKey(names, es[j].key);
      var renamed := es[i].key.Name? && es[i].key.text in names.of;
      if renamed && RenamedKey(names, es[j].key) == es[j].key {
        assert NamedBothWays(es, names);
      } else {
        assert NamedBothWays(es, names) by { assert RenamedKey(names, es[i].key) == es[i].key; }
      }
    }
  }

  /** One level of an error renamed keeps every key's errors, under its wire name, exactly where no field
      is refused both by its `source` and by its wire name; where one is, an error is lost. */
  lemma RenamingConserves(es: seq<Entry>, names: Names)
    requires IsDict(es) && Injective(names)
    ensures var renamed := WireNamed(Table(es), names).entries;
            && (|renamed| == |es| <==> !NamedBothWays(es, names))
            && (!NamedBothWays(es, names) ==> forall i :: 0 <= i < |es| ==>
                  Get(renamed, RenamedKey(names, es[i].key)) == Some(RenamedValue(names, es[i])))
  {
    RenamedSize([], es, names);
    ApartExactlyWhereNamedOnce(es, names);
    if KeysApart(es, names) {
      forall i | 0 <= i < |es|
        ensures Get(RenamedFrom([], es, names), RenamedKey(names, es[i].key)) == Some(RenamedValue(names, es[i]))
      {
        LastWins([], es, names, RenamedKey(names, es[i].key));
        LastOfApart(None, es, names, i);
      }
    }
  }

  // --- the whole tree

  /** The names a key's errors are renamed by, where they are. */
  function Inside(names: Names, k: Key): Option<Names> {
    if k.Index? then Some(names)
    else if k.text in names.of then names.of[k.text].nested
    else None
  }

  /** No two sources share a wire name, at any depth. */
  ghost predicate InjectiveThroughout(names: Names)
    decreases names
  {
    Injective(names) && forall s :: s in names.of ==> InjectiveInside(names.of[s])
  }

  ghost predicate InjectiveInside(w: Wire)
    decreases w
  {
    w.nested.Some? ==> InjectiveThroughout(w.nested.value)
  }

  /** No field is refused both by its `source` and by its wire name, at any level that is renamed. */
  ghost predicate NamedOnce(d: Detail, names: Names)
    decreases d
  {
    match d
    case Table(entries) => !NamedBothWays(entries, names) && forall e :: e in entries ==> EntryNamedOnce(e, names)
    case Lines(lines) => forall line :: line in lines ==> NamedOnce(line, names)
    case _ => true
  }

  ghost predicate EntryNamedOnce(e: Entry, names: Names)
    decreases e
  {
    Inside(names, e.key).Some? ==> NamedOnce(e.value, Inside(names, e.key).value)
  }

  ghost predicate AllDicts(d: Detail)
    decreases d
  {
    match d
    case Table(entries) => IsDict(entries) && forall e :: e in entries ==> AllDicts(e.value)
    case Lines(lines) => forall line :: line in lines ==> AllDicts(line)
    case _ => true
  }

  /** How many entries a detail holds, at any depth. */
  function Entries(d: Detail): nat
    decreases d
  {
    match d
    case Table(entries) => EntriesIn(entries)
    case Lines(lines) => EntriesInLines(lines)
    case _ => 0
  }

  function EntriesIn(es: seq<Entry>): nat
    decreases es
  {
    if es == [] then 0 else EntriesOf(es[0]) + EntriesIn(es[1..])
  }

  function EntriesOf(e: Entry): nat
    decreases e
  {
    1 + Entries(e.value)
  }

  function EntriesInLines(lines: seq<Detail>): nat
    decreases lines
  {
    if lines == [] then 0 else Entries(lines[0]) + EntriesInLines(lines[1..])
  }

  lemma {:induction false} PutEntries(es: seq<Entry>, k: Key, v: Detail)
    ensures EntriesIn(Put(es, k, v)) + (if Get(es, k).Some? then 1 + Entries(Get(es, k).value) else 0)
        == EntriesIn(es) + 1 + Entries(v)
  {
    if es == [] {
      assert [Entry(k, v)][1..] == [];
    } else if es[0].key == k {
      assert Put(es, k, v)[1..] == es[1..];
    } else {
      PutEntries(es[1..], k, v);
      assert Put(es, k, v)[1..] == Put(es[1..], k, v);
    }
  }

  /** The entries there would be were each key renamed to one of its own. */
  function EntriesRenamed(es: seq<Entry>, names: Names): nat {
    if es == [] then 0 else 1 + Entries(RenamedValue(names, es[0])) + EntriesRenamed(es[1..], names)
  }

  lemma {:induction false} RenamedEntries(renamed: seq<Entry>, es: seq<Entry>, names: Names)
    ensures EntriesIn(RenamedFrom(renamed, es, names)) <= EntriesIn(renamed) + EntriesRenamed(es, names)
    ensures EntriesIn(RenamedFrom(renamed, es, names)) == EntriesIn(renamed) + EntriesRenamed(es, names)
       <==> KeysApart(es, names) && forall i :: 0 <= i < |es| ==> !HasKey(renamed, RenamedKey(names, es[i].key))
    decreases es
  {
    if es != [] {
      var k, v := RenamedKey(names, es[0].key), RenamedValue(names, es[0]);
      PutEntries(renamed, k, v);
      GetNeedsKey(renamed, k);
      RenamedEntries(Put(renamed, k, v), es[1..], names);
      KeysApartOneMore(renamed, es, names);
    }
  }

  lemma KeysApartOneMore(renamed: seq<Entry>, es: seq<Entry>, names: Names)
    requires es != []
    ensures var put := Put(renamed, RenamedKey(names, es[0].key), RenamedValue(names, es[0]));
            (KeysApart(es, names) && (forall i :: 0 <= i < |es| ==> !HasKey(renamed, RenamedKey(names, es[i].key))))
              <==>
            (!HasKey(renamed, RenamedKey(names, es[0].key))
             && KeysApart(es[1..], names) && (forall i :: 0 <= i < |es[1..]| ==>
                                              !HasKey(put, RenamedKey(names, es[1..][i].key))))
  {
    var k, v := RenamedKey(names, es[0].key), RenamedValue(names, es[0]);
    forall i | 0 < i < |es|
      ensures HasKey(Put(renamed, k, v), RenamedKey(names, es[i].key))
         <==> HasKey(renamed, RenamedKey(names, es[i].key)) || RenamedKey(names, es[i].key) == k
    {
      GetOfPut(renamed, k, v, RenamedKey(names, es[i].key));
      GetNeedsKey(renamed, RenamedKey(names, es[i].key));
      GetNeedsKey(Put(renamed, k, v), RenamedKey(names, es[i].key));
    }
    assert forall i :: 0 < i < |es| ==> es[1..][i - 1] == es[i];
    assert forall i :: 0 <= i < |es| - 1 ==> es[1..][i] == es[i + 1];
  }

  /** A whole refusal renamed never gains an error, and keeps every one exactly where no level of it refuses a
      field both by its `source` and by its wire name. */
  lemma {:induction false} RenamingConservesTheTree(d: Detail, names: Names)
    requires AllDicts(d) && InjectiveThroughout(names)
    ensures Entries(WireNamed(d, names)) <= Entries(d)
    ensures Entries(WireNamed(d, names)) == Entries(d) <==> NamedOnce(d, names)
    decreases d
  {
    match d
    case Table(entries) =>
      EntriesConserved(entries, names);
      RenamedEntries([], entries, names);
      ApartExactlyWhereNamedOnce(entries, names);
    case Lines(lines) => LinesConserved(lines, names);
    case _ =>
  }

  lemma {:induction false} EntriesConserved(es: seq<Entry>, names: Names)
    requires (forall e :: e in es ==> AllDicts(e.value)) && InjectiveThroughout(names)
    ensures EntriesRenamed(es, names) <= EntriesIn(es)
    ensures EntriesRenamed(es, names) == EntriesIn(es) <==> forall e :: e in es ==> EntryNamedOnce(e, names)
    decreases es
  {
    if es != [] {
      EntryConserved(es[0], names);
      EntriesConserved(es[1..], names);
      assert es == [es[0]] + es[1..];
    }
  }

  lemma {:induction false} EntryConserved(e: Entry, names: Names)
    requires AllDicts(e.value) && InjectiveThroughout(names)
    ensures Entries(RenamedValue(names, e)) <= Entries(e.value)
    ensures Entries(RenamedValue(names, e)) == Entries(e.value) <==> EntryNamedOnce(e, names)
    decreases e
  {
    if Inside(names, e.key).Some? {
      if e.key.Name? {
        assert InjectiveInside(names.of[e.key.text]);
      }
      RenamingConservesTheTree(e.value, Inside(names, e.key).value);
    }
  }

  lemma {:induction false} LinesConserved(lines: seq<Detail>, names: Names)
    requires (forall line :: line in lines ==> AllDicts(line)) && InjectiveThroughout(names)
    ensures EntriesInLines(RenamedLines(lines, names)) <= EntriesInLines(lines)
    ensures EntriesInLines(RenamedLines(lines, names)) == EntriesInLines(lines)
        <==> forall line :: line in lines ==> NamedOnce(line, names)
    decreases lines
  {
    if lines != [] {
      RenamingConservesTheTree(lines[0], names);
      LinesConserved(lines[1..], names);
      assert lines == [lines[0]] + lines[1..];
      assert RenamedLines(lines, names)[1..] == RenamedLines(lines[1..], names);
    }
  }

  // --- where each error ends up

  /** One step into a refusal: under a key, or to a place in a list. */
  datatype Step = Into(key: Key) | Item(at: nat)

  function Entered(d: Detail, step: Step): Option<Detail> {
    match step
    case Into(k) => if d.Table? then Get(d.entries, k) else None
    case Item(i) => if d.Lines? && i < |d.lines| then Some(d.lines[i]) else None
  }

  function Reached(d: Detail, path: seq<Step>): Option<Detail>
    decreases |path|
  {
    if path == [] then Some(d)
    else
      match Entered(d, path[0])
      case None => None
      case Some(inner) => Reached(inner, path[1..])
  }

  /** The names in force past a step: those a key nests, and the same for each item of a list. */
  function Past(names: Names, step: Step): Option<Names> {
    match step
    case Into(k) => Inside(names, k)
    case Item(_) => Some(names)
  }

  function NamesAt(names: Names, path: seq<Step>): Option<Names>
    decreases |path|
  {
    if path == [] then Some(names)
    else
      match Past(names, path[0])
      case None => None
      case Some(inside) => NamesAt(inside, path[1..])
  }

  function RenamedStep(names: Names, step: Step): Step {
    match step
    case Into(k) => Into(RenamedKey(names, k))
    case Item(_) => step
  }

  /** A path as it is renamed: each key by the names in force there, and none past the last that are. */
  function RenamedPath(names: Names, path: seq<Step>): seq<Step>
    decreases |path|
  {
    if path == [] then []
    else
      match Past(names, path[0])
      case None => [RenamedStep(names, path[0])] + path[1..]
      case Some(inside) => [RenamedStep(names, path[0])] + RenamedPath(inside, path[1..])
  }

  /** What is renamed under the names in force, where any are. */
  function WireNamedUnder(d: Detail, names: Option<Names>): Detail {
    if names.Some? then WireNamed(d, names.value) else d
  }

  lemma {:induction false} RenamedLineAt(lines: seq<Detail>, names: Names, i: nat)
    requires i < |lines|
    ensures |RenamedLines(lines, names)| == |lines| && RenamedLines(lines, names)[i] == WireNamed(lines[i], names)
    decreases lines
  {
    if |lines| > 1 {
      RenamedLineAt(lines[1..], names, if i == 0 then 0 else i - 1);
    }
  }

  lemma {:induction false} AsManyLines(lines: seq<Detail>, names: Names)
    ensures |RenamedLines(lines, names)| == |lines|
    decreases lines
  {
    if lines != [] {
      AsManyLines(lines[1..], names);
    }
  }

  /** One step of a refusal named once leads, renamed, to what it led to, under the names in force there. */
  lemma StepRenamed(d: Detail, names: Names, step: Step)
    requires AllDicts(d) && InjectiveThroughout(names) && NamedOnce(d, names)
    requires Entered(d, step).Some?
    ensures var inner := Entered(d, step).value;
            && Entered(WireNamed(d, names), RenamedStep(names, step)) == Some(WireNamedUnder(inner, Past(names, step)))
            && AllDicts(inner)
            && (Past(names, step).Some? ==>
                  InjectiveThroughout(Past(names, step).value) && NamedOnce(inner, Past(names, step).value))
  {
    match step
    case Item(i) =>
      RenamedLineAt(d.lines, names, i);
      assert d.lines[i] in d.lines;
    case Into(k) =>
      var es := d.entries;
      GetNeedsKey(es, k);
      var i :| 0 <= i < |es| && es[i] == Entry(k, Get(es, k).value);
      RenamingConserves(es, names);
      assert EntryNamedOnce(es[i], names) && AllDicts(es[i].value);
      assert k.Name? && k.text in names.of ==> InjectiveInside(names.of[k.text]);
  }

  /** Where a refusal is named once throughout, whatever a path leads to, an error or a list or a dict of them, is
      at that path renamed, and is renamed itself under the names in force there alone. */
  lemma {:induction false} EveryErrorIsAtItsWirePath(d: Detail, names: Names, path: seq<Step>)
    requires AllDicts(d) && InjectiveThroughout(names) && NamedOnce(d, names)
    requires Reached(d, path).Some?
    ensures Reached(WireNamed(d, names), RenamedPath(names, path))
         == Some(WireNamedUnder(Reached(d, path).value, NamesAt(names, path)))
    decreases |path|
  {
    if path != [] {
      StepRenamed(d, names, path[0]);
      var inner := Entered(d, path[0]).value;
      match Past(names, path[0])
      case None =>
        assert RenamedPath(names, path)[1..] == path[1..];
      case Some(inside) =>
        EveryErrorIsAtItsWirePath(inner, inside, path[1..]);
        assert RenamedPath(names, path)[1..] == RenamedPath(inside, path[1..]);
    }
  }

  /** No key at any depth: a message, or lists of messages. */
  ghost predicate OnlyMessages(d: Detail)
    decreases d
  {
    match d
    case Table(_) => false
    case Lines(lines) => forall line :: line in lines ==> OnlyMessages(line)
    case _ => true
  }

  /** So a field's messages, its list of them included, are word for word at its wire path. */
  lemma MessagesAreAtTheirWirePath(d: Detail, names: Names, path: seq<Step>)
    requires AllDicts(d) && InjectiveThroughout(names) && NamedOnce(d, names)
    requires Reached(d, path).Some? && OnlyMessages(Reached(d, path).value)
    ensures Reached(WireNamed(d, names), RenamedPath(names, path)) == Reached(d, path)
  {
    EveryErrorIsAtItsWirePath(d, names, path);
    if NamesAt(names, path).Some? {
      MessagesStay(Reached(d, path).value, NamesAt(names, path).value);
    }
  }

  lemma {:induction false} MessagesStay(d: Detail, names: Names)
    requires OnlyMessages(d)
    ensures WireNamed(d, names) == d
    decreases d
  {
    if d.Lines? {
      AsManyLines(d.lines, names);
      forall i | 0 <= i < |d.lines| ensures RenamedLines(d.lines, names)[i] == d.lines[i] {
        RenamedLineAt(d.lines, names, i);
        MessagesStay(d.lines[i], names);
      }
      assert RenamedLines(d.lines, names) == d.lines;
    }
  }

  /** And nothing stands at a path of the renamed refusal but what some path of the refusal led to, whether or not
      it was named once: a rename may lose an error but makes none up. */
  lemma {:induction false} NothingIsMadeUp(d: Detail, names: Names, wire: seq<Step>)
    requires AllDicts(d) && Reached(WireNamed(d, names), wire).Some?
    ensures exists path: seq<Step> ::
              && RenamedPath(names, path) == wire && Reached(d, path).Some?
              && Reached(WireNamed(d, names), wire)
                 == Some(WireNamedUnder(Reached(d, path).value, NamesAt(names, path)))
    decreases |wire|
  {
    if wire == [] {
      assert RenamedPath(names, []) == wire && Reached(d, []) == Some(d) && NamesAt(names, []) == Some(names);
    } else {
      var step := StepBack(d, names, wire[0]);
      var inner := Entered(d, step).value;
      var rest: seq<Step>;
      match Past(names, step) {
        case None => rest := wire[1..];
        case Some(inside) =>
          NothingIsMadeUp(inner, inside, wire[1..]);
          rest :| RenamedPath(inside, rest) == wire[1..] && Reached(inner, rest).Some?
               && Reached(WireNamed(inner, inside), wire[1..])
                  == Some(WireNamedUnder(Reached(inner, rest).value, NamesAt(inside, rest)));
      }
      var path := [step] + rest;
      assert path[1..] == rest && RenamedPath(names, path) == wire;
    }
  }

  /** The step a renamed one came from. */
  lemma StepBack(d: Detail, names: Names, wire: Step) returns (step: Step)
    requires AllDicts(d) && Entered(WireNamed(d, names), wire).Some?
    ensures RenamedStep(names, step) == wire && Entered(d, step).Some? && AllDicts(Entered(d, step).value)
    ensures Entered(WireNamed(d, names), wire) == Some(WireNamedUnder(Entered(d, step).value, Past(names, step)))
  {
    match wire
    case Item(i) =>
      step := wire;
      AsManyLines(d.lines, names);
      RenamedLineAt(d.lines, names, i);
      assert d.lines[i] in d.lines;
    case Into(q) =>
      LastWins([], d.entries, names, q);
      var i := LastIsOne(d.entries, names, q);
      step := Into(d.entries[i].key);
      GetOfDict(d.entries, i);
  }

  lemma {:induction false} LastIsOne(es: seq<Entry>, names: Names, q: Key) returns (i: nat)
    requires LastRenamed(None, es, names, q).Some?
    ensures i < |es| && RenamedKey(names, es[i].key) == q
    ensures LastRenamed(None, es, names, q) == Some(RenamedValue(names, es[i]))
    decreases es
  {
    var last := LastRenamed(None, es[1..], names, q);
    if last.Some? {
      LastOverAny(RenamedValue(names, es[0]), es[1..], names, q);
      i := LastIsOne(es[1..], names, q);
      i := i + 1;
    } else {
      LastOverAny(RenamedValue(names, es[0]), es[1..], names, q);
      i := 0;
    }
  }

  lemma {:induction false} LastOverAny(was: Detail, es: seq<Entry>, names: Names, q: Key)
    ensures LastRenamed(Some(was), es, names, q)
         == if LastRenamed(None, es, names, q).Some? then LastRenamed(None, es, names, q) else Some(was)
    decreases es
  {
    if es != [] {
      LastOverAny(was, es[1..], names, q);
      if RenamedKey(names, es[0].key) == q {
        LastOverAny(RenamedValue(names, es[0]), es[1..], names, q);
      }
    }
  }

  lemma {:induction false} GetOfDict(es: seq<Entry>, i: nat)
    requires IsDict(es) && i < |es|
    ensures Get(es, es[i].key) == Some(es[i].value)
    decreases es
  {
    if i > 0 {
      DictKeysDiffer(es, 0, i);
      GetOfDict(es[1..], i - 1);
    }
  }

  /** Two rows under `chapters`, `sections` on the wire, the second one's `heading`, `title` on the wire, refused. */
  const ROW_NAMES := Names(map["heading" := Wire("title", None)])
  const LIST_NAMES := Names(map["chapters" := Wire("sections", Some(ROW_NAMES))])
  const TOO_RUDE := Lines([Message("rude", "Too rude.")])
  const REFUSED_ROW := Table([Entry(Name("heading"), TOO_RUDE)])
  const REFUSED_ROWS := Table([Entry(Name("chapters"), Lines([Table([]), REFUSED_ROW]))])
  const BY_SOURCE := [Into(Name("chapters")), Item(1), Into(Name("heading"))]
  const BY_WIRE_NAME := [Into(Name("sections")), Item(1), Into(Name("title"))]

  /** Its messages are found in the second row, each key by its wire name. */
  lemma AListedRowsErrorIsFound()
    ensures Reached(WireNamed(REFUSED_ROWS, LIST_NAMES), BY_WIRE_NAME) == Some(TOO_RUDE)
  {
    ARowNamedOnce();
    RowsNamedOnce();
    ARowsErrorIsReached();
    MessagesAreAtTheirWirePath(REFUSED_ROWS, LIST_NAMES, BY_SOURCE);
  }

  lemma ARowNamedOnce()
    ensures AllDicts(REFUSED_ROW) && NamedOnce(REFUSED_ROW, ROW_NAMES) && InjectiveThroughout(ROW_NAMES)
    ensures OnlyMessages(TOO_RUDE)
  {
    assert AllDicts(TOO_RUDE);
  }

  lemma RowsNamedOnce()
    requires AllDicts(REFUSED_ROW) && NamedOnce(REFUSED_ROW, ROW_NAMES) && InjectiveThroughout(ROW_NAMES)
    ensures AllDicts(REFUSED_ROWS) && NamedOnce(REFUSED_ROWS, LIST_NAMES) && InjectiveThroughout(LIST_NAMES)
  {
    var rows := [Table([]), REFUSED_ROW];
    assert AllDicts(Table([])) && NamedOnce(Table([]), ROW_NAMES);
    assert AllDicts(Lines(rows)) && NamedOnce(Lines(rows), ROW_NAMES);
  }

  lemma ARowsErrorIsReached()
    ensures Reached(REFUSED_ROWS, BY_SOURCE) == Some(TOO_RUDE)
    ensures RenamedPath(LIST_NAMES, BY_SOURCE) == BY_WIRE_NAME
  {
    assert BY_SOURCE[1..] == [Item(1), Into(Name("heading"))] && BY_SOURCE[1..][1..] == [Into(Name("heading"))];
    assert Entered(REFUSED_ROWS, BY_SOURCE[0]) == Some(Lines([Table([]), REFUSED_ROW]));
    assert Reached(REFUSED_ROW, [Into(Name("heading"))]) == Some(TOO_RUDE);
  }

  // --- a serializer's own names are such names

  /** Field names are a dict's keys, at any depth. */
  ghost predicate DistinctThroughout(fs: seq<WireField>)
    decreases fs
  {
    DistinctFields(fs) && forall f :: f in fs ==> DistinctInside(f)
  }

  ghost predicate DistinctInside(f: WireField)
    decreases f
  {
    DistinctThroughout(f.nested)
  }

  lemma {:induction false} WireNamesAreInjectiveThroughout(fs: seq<WireField>)
    requires DistinctThroughout(fs)
    ensures InjectiveThroughout(WireNamesOf(fs))
    decreases fs, 1
  {
    WireNamesAreInjective(fs);
    NestedNamesInjective(Names(map[]), fs);
  }

  lemma {:induction false} NestedNamesInjective(names: Names, fs: seq<WireField>)
    requires forall s :: s in names.of ==> InjectiveInside(names.of[s])
    requires forall f :: f in fs ==> DistinctInside(f)
    ensures forall s :: s in NamesFrom(names, fs).of ==> InjectiveInside(NamesFrom(names, fs).of[s])
    decreases fs, 0
  {
    if fs != [] {
      WireIsInjectiveInside(fs[0]);
      assert forall f :: f in fs[1..] ==> f in fs;
      NestedNamesInjective(names, fs[1..]);
      NestedNamesInjective(Names(names.of[fs[0].source := WireOf(fs[0])]), fs[1..]);
    }
  }

  lemma {:induction false} WireIsInjectiveInside(f: WireField)
    requires DistinctInside(f)
    ensures InjectiveInside(WireOf(f))
    decreases f
  {
    WireNamesAreInjectiveThroughout(f.nested);
  }

  // --- and rename each field's path, however deep

  /** A way down a serializer: into a field, or to a row of a list of serializers. */
  datatype Descent = Within(field: WireField) | Row(at: nat)

  /** Each field is the first writable one of its plain `source` where the way comes to it. */
  ghost predicate Leads(fs: seq<WireField>, path: seq<Descent>)
    decreases |path|
  {
    path != [] ==>
      match path[0]
      case Row(_) => Leads(fs, path[1..])
      case Within(f) =>
        && (exists i :: 0 <= i < |fs| && fs[i] == f && Renames(f)
              && forall j :: 0 <= j < i ==> !(Renames(fs[j]) && fs[j].source == f.source))
        && Leads(f.nested, path[1..])
  }

  function BySources(path: seq<Descent>): seq<Step> {
    seq(|path|, i requires 0 <= i < |path| =>
      match path[i] case Within(f) => Into(Name(f.source)) case Row(at) => Item(at))
  }

  function ByNames(path: seq<Descent>): seq<Step> {
    seq(|path|, i requires 0 <= i < |path| =>
      match path[i] case Within(f) => Into(Name(f.name)) case Row(at) => Item(at))
  }

  /** The names of the first writable field of a source are its own name and those inside it. */
  lemma {:induction false} FirstOfItsSource(names: Names, fs: seq<WireField>, i: nat)
    requires i < |fs| && Renames(fs[i]) && fs[i].source !in names.of
    requires forall j :: 0 <= j < i ==> !(Renames(fs[j]) && fs[j].source == fs[i].source)
    ensures var s := fs[i].source;
            && s in NamesFrom(names, fs).of && NamesFrom(names, fs).of[s].name == fs[i].name
            && NamesFrom(names, fs).of[s].nested
               == if WireNamesOf(fs[i].nested).of == map[] then None else Some(WireNamesOf(fs[i].nested))
    decreases fs
  {
    if i == 0 {
      NamesStay(Names(names.of[fs[0].source := WireOf(fs[0])]), fs[1..], fs[0].source);
    } else {
      FirstOfItsSource(WithField(names, fs[0]), fs[1..], i - 1);
    }
  }

  lemma {:induction false} NamesStay(names: Names, fs: seq<WireField>, s: string)
    requires s in names.of
    ensures s in NamesFrom(names, fs).of && NamesFrom(names, fs).of[s] == names.of[s]
    decreases fs
  {
    if fs != [] {
      NamesStay(WithField(names, fs[0]), fs[1..], s);
    }
  }

  lemma {:induction false} OnlyRowsWithoutNames(fs: seq<WireField>, path: seq<Descent>)
    requires Leads(fs, path) && WireNamesOf(fs).of == map[]
    ensures BySources(path) == ByNames(path)
    decreases |path|
  {
    if path != [] {
      if path[0].Within? {
        var i :| 0 <= i < |fs| && fs[i] == path[0].field && Renames(path[0].field)
          && forall j :: 0 <= j < i ==> !(Renames(fs[j]) && fs[j].source == path[0].field.source);
        FirstOfItsSource(Names(map[]), fs, i);
        assert false;
      }
      OnlyRowsWithoutNames(fs, path[1..]);
      assert BySources(path) == [BySources(path)[0]] + BySources(path[1..]);
      assert ByNames(path) == [ByNames(path)[0]] + ByNames(path[1..]);
    }
  }

  /** A serializer's names rename the way to a field, `source` by `source`, to the way by wire names, through nested
      serializers and their rows. */
  lemma {:induction false} FieldsAreAtTheirWirePath(fs: seq<WireField>, path: seq<Descent>)
    requires Leads(fs, path)
    ensures RenamedPath(WireNamesOf(fs), BySources(path)) == ByNames(path)
    decreases |path|
  {
    if path != [] {
      var names, rest := WireNamesOf(fs), path[1..];
      assert BySources(path)[1..] == BySources(rest) && ByNames(path)[1..] == ByNames(rest);
      match path[0]
      case Row(at) =>
        FieldsAreAtTheirWirePath(fs, rest);
      case Within(f) =>
        var i :| 0 <= i < |fs| && fs[i] == f && Renames(f)
          && forall j :: 0 <= j < i ==> !(Renames(fs[j]) && fs[j].source == f.source);
        FirstOfItsSource(Names(map[]), fs, i);
        if WireNamesOf(f.nested).of == map[] {
          OnlyRowsWithoutNames(f.nested, rest);
        } else {
          FieldsAreAtTheirWirePath(f.nested, rest);
        }
    }
  }

  /** One field, `tenant` on the wire, `org` by its `source`, refused under both. */
  const REFUSED_TWICE := [Entry(Name("org"), Message("a", "By its source.")),
                          Entry(Name("tenant"), Message("b", "By its name."))]
  const TENANT := Names(map["org" := Wire("tenant", None)])

  /** There the first of the two errors is lost. */
  lemma OneOfTwoRefusalsIsLost()
    ensures IsDict(REFUSED_TWICE) && Injective(TENANT) && NamedBothWays(REFUSED_TWICE, TENANT)
    ensures WireNamed(Table(REFUSED_TWICE), TENANT) == Table([Entry(Name("tenant"), Message("b", "By its name."))])
  {
    var es := REFUSED_TWICE;
    assert es[1..] == [es[1]] && [es[1]][1..] == [];
    assert RenamedKey(TENANT, es[0].key) == Name("tenant") && RenamedKey(TENANT, es[1].key) == Name("tenant");
    assert es[0].key.text in TENANT.of && es[1].key == Name(TENANT.of[es[0].key.text].name);
    var first := Put([], Name("tenant"), es[0].value);
    assert first == [Entry(Name("tenant"), es[0].value)] && first[1..] == [];
    assert RenamedFrom([], es, TENANT) == RenamedFrom(first, [es[1]], TENANT);
    assert Put(first, Name("tenant"), es[1].value) == [Entry(Name("tenant"), es[1].value)];
  }
}
