/**
  Which of a selector spec's reads the caller must send: once as the spec compiles,
  from its callables' signatures and its declared reads, and once as the edge relaxes
  it, from an independent reading of the same callables.
*/
module Requiredness {
  import opened Prelude

  datatype Kind = PositionalOnly | Keyword | VarPositional | VarKeyword

  /** A key of an `Unpack`-ed `TypedDict`: whether that requires it, and whether it is marked `InputRequired`. */
  datatype Key = Key(name: string, required: bool, marked: bool)

  /** A parameter as a signature gives it, a `**kwargs` with the keys of its `TypedDict`, if any. */
  datatype Param = Param(name: string, kind: Kind, hasDefault: bool, marked: bool, keys: seq<Key>)

  /** `fillsItsOwn`: a wrapper that may fill its own parameters. */
  datatype Callable = Callable(params: seq<Param>, fillsItsOwn: bool)

  /** A read, declared or compiled. */
  datatype Read = Read(name: string, required: bool, hasDefault: bool)

  /** A selector spec: its declared reads, those of them compiled as shapes, the names its filter reads, the
      names that are no argument or that a callable hides, and whether a provider says nothing of its keys. */
  datatype Spec = Spec(selector: Callable, preconditions: seq<Callable>, entries: seq<Read>, shapes: set<string>,
                       filter: set<string>, skipped: set<string>, openEnded: bool)

  function Names(rs: seq<Read>): set<string> {
    set i | 0 <= i < |rs| :: rs[i].name
  }

  ghost predicate Distinct(rs: seq<Read>) {
    forall i, j :: 0 <= i < j < |rs| ==> rs[i].name != rs[j].name
  }

  // --- the compiled reads

  function KeyReads(keys: seq<Key>, skipped: set<string>): seq<Read> {
    if keys == [] then []
    else
      var rest := KeyReads(keys[1..], skipped);
      if keys[0].name in skipped then rest else [Read(keys[0].name, keys[0].required || keys[0].marked, false)] + rest
  }

  function ParamReads(p: Param, asked: bool, skipped: set<string>): seq<Read> {
    if p.kind.VarKeyword? then KeyReads(p.keys, skipped)
    else if p.name in skipped || p.kind.VarPositional? || p.kind.PositionalOnly? then []
    else [Read(p.name, (!p.hasDefault && asked) || p.marked, p.hasDefault && !p.marked)]
  }

  function ReflectedOf(params: seq<Param>, asked: bool, skipped: set<string>): seq<Read> {
    if params == [] then []
    else ReflectedOf(params[..|params| - 1], asked, skipped) + ParamReads(params[|params| - 1], asked, skipped)
  }

  function Asked(fn: Callable, openEnded: bool): bool { !openEnded && !fn.fillsItsOwn }

  function Reflected(s: Spec, fn: Callable): seq<Read> {
    ReflectedOf(fn.params, Asked(fn, s.openEnded), s.skipped)
  }

  /** As it runs, over the signature. */
  method Reflect(s: Spec, fn: Callable) returns (reflected: seq<Read>)
    ensures reflected == Reflected(s, fn)
  {
    var asked := !s.openEnded && !fn.fillsItsOwn;
    reflected := [];
    for i := 0 to |fn.params|
      invariant reflected == ReflectedOf(fn.params[..i], asked, s.skipped)
    {
      var p := fn.params[i];
      assert fn.params[..i + 1][..i] == fn.params[..i];
      if p.kind.VarKeyword? {
        reflected := reflected + KeyReads(p.keys, s.skipped);
      } else if p.name !in s.skipped && !p.kind.VarPositional? && !p.kind.PositionalOnly? {
        reflected := reflected + [Read(p.name, (!p.hasDefault && asked) || p.marked, p.hasDefault && !p.marked)];
      } else {
        assert reflected + ParamReads(p, asked, s.skipped) == reflected;
      }
    }
    assert fn.params[..|fn.params|] == fn.params;
  }

  /** The names a callable of `callables` requires with no read declared. */
  function RequiredBy(s: Spec, callables: seq<Callable>): set<string> {
    set fn, r | fn in callables && r in Reflected(s, fn) && r.required :: r.name
  }

  function Requiring(declared: seq<Read>, names: set<string>): seq<Read> {
    seq(|declared|, i requires 0 <= i < |declared| =>
      if declared[i].name in names && !declared[i].hasDefault then declared[i].(required := true) else declared[i])
  }

  function DeclaredOver(read: Option<Read>, reflected: Read): Read {
    if read.None? then reflected
    else read.value.(required := read.value.required || (reflected.required && !read.value.hasDefault))
  }

  function Find(rs: seq<Read>, name: string): Option<Read> {
    if rs == [] then None else if rs[0].name == name then Some(rs[0]) else Find(rs[1..], name)
  }

  function Less(rs: seq<Read>, names: set<string>): seq<Read> {
    if rs == [] then []
    else
      var rest := Less(rs[1..], names);
      if rs[0].name in names then rest else [rs[0]] + rest
  }

  lemma {:induction false} FindExactly(rs: seq<Read>, name: string)
    ensures match Find(rs, name)
            case None => name !in Names(rs)
            case Some(r) => r in rs && r.name == name
    ensures Distinct(rs) ==> forall i :: 0 <= i < |rs| && rs[i].name == name ==> Find(rs, name) == Some(rs[i])
  {
    if rs != [] {
      FindExactly(rs[1..], name);
      forall i | 0 <= i < |rs| && rs[i].name == name ensures Distinct(rs) ==> Find(rs, name) == Some(rs[i]) {
        if i > 0 {
          assert rs[i] == rs[1..][i - 1];
        }
      }
    }
  }

  lemma {:induction false} LessExactly(rs: seq<Read>, names: set<string>, r: Read)
    ensures r in Less(rs, names) <==> r in rs && r.name !in names
  {
    if rs != [] {
      LessExactly(rs[1..], names, r);
      assert rs == [rs[0]] + rs[1..];
    }
  }

  lemma {:induction false} LessAlike(rs: seq<Read>, names: set<string>, others: set<string>)
    requires forall r :: r in rs ==> (r.name in names <==> r.name in others)
    ensures Less(rs, names) == Less(rs, others)
  {
    if rs != [] {
      assert forall r :: r in rs[1..] ==> r in rs;
      LessAlike(rs[1..], names, others);
    }
  }

  function OverEach(reflected: seq<Read>, declared: seq<Read>): seq<Read> {
    seq(|reflected|, i requires 0 <= i < |reflected| => DeclaredOver(Find(declared, reflected[i].name), reflected[i]))
  }

  function Merged(reflected: seq<Read>, declared: seq<Read>, skip: set<string>): seq<Read> {
    Less(OverEach(reflected, declared) + Less(declared, Names(reflected)), skip)
  }

  /** As it runs, popping each declared read as its namesake takes it. */
  method Merge(reflected: seq<Read>, declared: seq<Read>, skip: set<string>) returns (compiled: seq<Read>)
    requires Distinct(reflected) && Distinct(declared)
    ensures compiled == Merged(reflected, declared, skip)
  {
    var byName := map i | 0 <= i < |declared| :: declared[i].name := declared[i];
    ByNameFinds(declared, byName);
    var merged: seq<Read> := [];
    for k := 0 to |reflected|
      invariant Unpopped(byName, declared, Names(reflected[..k]))
      invariant merged == OverEach(reflected[..k], declared)
    {
      var r := reflected[k];
      NotYetTaken(reflected, k);
      Popping(byName, declared, Names(reflected[..k]), r.name);
      OverOneMore(reflected, k, declared);
      merged := merged + [DeclaredOver(if r.name in byName then Some(byName[r.name]) else None, r)];
      byName := byName - {r.name};
    }
    assert reflected[..|reflected|] == reflected;
    LeftOver(declared, reflected, byName);
    merged := merged + Less(declared, Names(declared) - byName.Keys);
    compiled := Less(merged, skip);
  }

  /** The dict of declared reads, less those popped. */
  ghost predicate Unpopped(byName: map<string, Read>, declared: seq<Read>, popped: set<string>) {
    forall name :: if name in byName then name !in popped && Find(declared, name) == Some(byName[name])
                   else name in popped || Find(declared, name).None?
  }

  lemma Popping(byName: map<string, Read>, declared: seq<Read>, popped: set<string>, name: string)
    requires Unpopped(byName, declared, popped) && name !in popped
    ensures Find(declared, name) == if name in byName then Some(byName[name]) else None
    ensures Unpopped(byName - {name}, declared, popped + {name})
  {
  }

  lemma OverOneMore(reflected: seq<Read>, k: nat, declared: seq<Read>)
    requires k < |reflected|
    ensures OverEach(reflected[..k + 1], declared)
         == OverEach(reflected[..k], declared) + [DeclaredOver(Find(declared, reflected[k].name), reflected[k])]
  {
  }

  lemma ByNameFinds(declared: seq<Read>, byName: map<string, Read>)
    requires Distinct(declared) && byName.Keys == Names(declared)
    requires forall i :: 0 <= i < |declared| ==> declared[i].name in byName && byName[declared[i].name] == declared[i]
    ensures Unpopped(byName, declared, {})
  {
    forall name
      ensures if name in byName then Find(declared, name) == Some(byName[name]) else Find(declared, name).None?
    {
      FindExactly(declared, name);
      if r :| r in declared && r.name == name {
        assert name in Names(declared);
      }
    }
  }

  lemma NotYetTaken(rs: seq<Read>, k: nat)
    requires Distinct(rs) && k < |rs|
    ensures rs[k].name !in Names(rs[..k])
    ensures Names(rs[..k + 1]) == Names(rs[..k]) + {rs[k].name}
  {
    assert forall i :: 0 <= i < k ==> rs[..k][i] == rs[i];
    assert rs[..k + 1] == rs[..k] + [rs[k]];
    assert (rs[..k] + [rs[k]])[k] == rs[k];
    forall i | 0 <= i < k ensures rs[i].name in Names(rs[..k + 1]) {
      assert rs[..k + 1][i] == rs[i];
    }
  }

  /** What is not popped is what no reflected parameter is named like. */
  lemma LeftOver(declared: seq<Read>, reflected: seq<Read>, byName: map<string, Read>)
    requires Unpopped(byName, declared, Names(reflected))
    ensures Less(declared, Names(declared) - byName.Keys) == Less(declared, Names(reflected))
  {
    var left := byName.Keys;
    forall r | r in declared ensures r.name in Names(declared) - left <==> r.name in Names(reflected) {
      FindExactly(declared, r.name);
      var i :| 0 <= i < |declared| && declared[i] == r;
      assert r.name in Names(declared);
    }
    LessAlike(declared, Names(declared) - left, Names(reflected));
  }

  // --- the compiled spec

  function Declared(s: Spec): seq<Read> {
    Requiring(Less(s.entries, s.shapes), RequiredBy(s, s.preconditions))
  }

  function Compiled(s: Spec): seq<Read> {
    Merged(Reflected(s, s.selector), Declared(s), s.filter)
  }

  /** What the kernel's Parameters and the spec's own declarations refuse otherwise: a name twice. */
  ghost predicate Registers(s: Spec) {
    Distinct(s.entries) && Distinct(Reflected(s, s.selector))
  }

  // --- the edge's relaxation

  function Callables(s: Spec): seq<Callable> { [s.selector] + s.preconditions }

  predicate PlainRequired(p: Param) { p.kind.Keyword? && !p.hasDefault && !p.marked }

  /** Its keyword parameters with no default, less those marked `InputRequired`. */
  function NoDefault(fn: Callable): set<string> {
    set p | p in fn.params && PlainRequired(p) :: p.name
  }

  function InputRequired(fn: Callable): set<string> {
    set p | p in fn.params && p.marked :: p.name
  }

  function SayingRequired(entries: seq<Read>): set<string> {
    set r | r in entries && r.required :: r.name
  }

  function RequiredForHavingNoDefault(s: Spec): set<string> {
    (set fn, name | fn in Callables(s) && name in NoDefault(fn) :: name)
    - (set fn, name | fn in Callables(s) && name in InputRequired(fn) :: name)
    - SayingRequired(s.entries)
  }

  /** As it runs, over the callables. */
  method NameRequiredForHavingNoDefault(s: Spec) returns (names: set<string>)
    ensures names == RequiredForHavingNoDefault(s)
  {
    var callables := Callables(s);
    names := {};
    var marked: set<string> := {};
    for i := 0 to |callables|
      invariant names == set fn, name | fn in callables[..i] && name in NoDefault(fn) :: name
      invariant marked == set fn, name | fn in callables[..i] && name in InputRequired(fn) :: name
    {
      assert callables[..i + 1] == callables[..i] + [callables[i]];
      names := names + NoDefault(callables[i]);
      marked := marked + InputRequired(callables[i]);
    }
    assert callables[..|callables|] == callables;
    names := names - marked - SayingRequired(s.entries);
  }

  /** Only `required` moves; `None` where there is none to move. */
  function Optional(compiled: seq<Read>, names: set<string>): Option<seq<Read>> {
    if forall i :: 0 <= i < |compiled| ==> !(compiled[i].required && compiled[i].name in names) then None
    else Some(seq(|compiled|, i requires 0 <= i < |compiled| =>
                  if compiled[i].name in names then compiled[i].(required := false) else compiled[i]))
  }

  function Variant(s: Spec): seq<Read> {
    match Optional(Compiled(s), RequiredForHavingNoDefault(s))
    case None => Compiled(s)
    case Some(relaxed) => relaxed
  }

  // --- the two readings agree

  lemma {:induction false} ReflectedExactly(params: seq<Param>, asked: bool, skipped: set<string>, r: Read)
    ensures r in ReflectedOf(params, asked, skipped) <==> exists p :: p in params && r in ParamReads(p, asked, skipped)
  {
    if params != [] {
      var last, front := params[|params| - 1], params[..|params| - 1];
      assert params == front + [last];
      ReflectedExactly(front, asked, skipped, r);
    }
  }

  predicate TakesKeys(fn: Callable) { exists p :: p in fn.params && p.kind.VarKeyword? && p.keys != [] }

  /** A callable with no `TypedDict` requires a name for having no default, or for its mark. */
  lemma RequiredForAReason(s: Spec, fn: Callable, r: Read)
    requires r in Reflected(s, fn) && r.required && !TakesKeys(fn)
    ensures r.name in NoDefault(fn) || r.name in InputRequired(fn)
  {
    ReflectedExactly(fn.params, Asked(fn, s.openEnded), s.skipped, r);
    var p :| p in fn.params && r in ParamReads(p, Asked(fn, s.openEnded), s.skipped);
    assert p.name == r.name && (PlainRequired(p) || p.marked);
  }

  /** Why a compiled read is required: its declaration says so, the selector requires the name, or a
      precondition requires one that is declared. */
  lemma CompiledRequired(s: Spec, r: Read)
    requires Registers(s) && r in Compiled(s) && r.required
    ensures || r.name in SayingRequired(s.entries)
            || (exists q :: q in Reflected(s, s.selector) && q.name == r.name && q.required)
            || r.name in RequiredBy(s, s.preconditions)
  {
    var reflected, declared := Reflected(s, s.selector), Declared(s);
    var over := OverEach(reflected, declared);
    LessExactly(over + Less(declared, Names(reflected)), s.filter, r);
    if r in over {
      var i :| 0 <= i < |over| && over[i] == r;
      FindExactly(declared, reflected[i].name);
      if Find(declared, reflected[i].name).Some? && Find(declared, reflected[i].name).value.required {
        DeclaredRequired(s, Find(declared, reflected[i].name).value);
      }
    } else {
      LessExactly(declared, Names(reflected), r);
      DeclaredRequired(s, r);
    }
  }

  lemma DeclaredRequired(s: Spec, r: Read)
    requires r in Declared(s) && r.required
    ensures r.name in SayingRequired(s.entries) || r.name in RequiredBy(s, s.preconditions)
  {
    var entries := Less(s.entries, s.shapes);
    var i :| 0 <= i < |entries| && Declared(s)[i] == r;
    LessExactly(s.entries, s.shapes, entries[i]);
  }

  // --- what compiles, over the parameters themselves

  /** Whether a callable takes a name by keyword, or as a key of its `TypedDict`, and not as what is no argument. */
  ghost predicate Takes(s: Spec, fn: Callable, name: string) {
    name !in s.skipped && exists p :: p in fn.params && Reads(p, name)
  }

  ghost predicate Reads(p: Param, name: string) {
    (p.kind.Keyword? && p.name == name) || (p.kind.VarKeyword? && exists k :: k in p.keys && k.name == name)
  }

  /** Whether it requires it: a parameter marked `InputRequired`, or with no default where neither the callable nor
      a provider that says nothing of its keys may fill it; a key its `TypedDict` requires, or so marked. */
  ghost predicate Requires(s: Spec, fn: Callable, name: string) {
    name !in s.skipped && exists p :: p in fn.params && Asks(s, fn, p, name)
  }

  ghost predicate Asks(s: Spec, fn: Callable, p: Param, name: string) {
    || (p.kind.Keyword? && p.name == name && (p.marked || (!p.hasDefault && !s.openEnded && !fn.fillsItsOwn)))
    || (p.kind.VarKeyword? && exists k :: k in p.keys && k.name == name && (k.required || k.marked))
  }

  lemma {:induction false} KeyReadsExactly(keys: seq<Key>, skipped: set<string>, r: Read)
    ensures r in KeyReads(keys, skipped) <==>
      exists k :: k in keys && k.name !in skipped && r == Read(k.name, k.required || k.marked, false)
  {
    if keys != [] {
      KeyReadsExactly(keys[1..], skipped, r);
      assert keys == [keys[0]] + keys[1..];
    }
  }

  lemma ReadsOfOne(s: Spec, fn: Callable, p: Param, name: string)
    ensures var given := ParamReads(p, Asked(fn, s.openEnded), s.skipped);
            && ((exists r :: r in given && r.name == name) <==> name !in s.skipped && Reads(p, name))
            && ((exists r :: r in given && r.name == name && r.required) <==>
                name !in s.skipped && Asks(s, fn, p, name))
  {
    var given := ParamReads(p, Asked(fn, s.openEnded), s.skipped);
    if p.kind.VarKeyword? {
      forall r ensures r in given <==>
          exists k :: k in p.keys && k.name !in s.skipped && r == Read(k.name, k.required || k.marked, false)
      {
        KeyReadsExactly(p.keys, s.skipped, r);
      }
      forall k | k in p.keys && k.name == name && name !in s.skipped
        ensures Read(name, k.required || k.marked, false) in given
      {
      }
    } else if p.kind.Keyword? && p.name == name && name !in s.skipped {
      assert given[0] in given;
    }
  }

  /** The reads a signature gives are those it takes, required exactly where it requires them. */
  lemma ReflectedReads(s: Spec, fn: Callable, name: string)
    ensures (exists r :: r in Reflected(s, fn) && r.name == name) <==> Takes(s, fn, name)
    ensures (exists r :: r in Reflected(s, fn) && r.name == name && r.required) <==> Requires(s, fn, name)
  {
    var asked := Asked(fn, s.openEnded);
    forall r ensures r in Reflected(s, fn) <==> exists p :: p in fn.params && r in ParamReads(p, asked, s.skipped) {
      ReflectedExactly(fn.params, asked, s.skipped, r);
    }
    forall p | p in fn.params
      ensures (exists r :: r in ParamReads(p, asked, s.skipped) && r.name == name)
         <==> name !in s.skipped && Reads(p, name)
      ensures (exists r :: r in ParamReads(p, asked, s.skipped) && r.name == name && r.required)
         <==> name !in s.skipped && Asks(s, fn, p, name)
    {
      ReadsOfOne(s, fn, p, name);
    }
  }

  /** The declared read of a name that is no shape. */
  function Kept(s: Spec, name: string): Option<Read> { Find(Less(s.entries, s.shapes), name) }

  lemma {:induction false} FindRequiring(rs: seq<Read>, names: set<string>, name: string)
    ensures Find(Requiring(rs, names), name)
         == match Find(rs, name)
            case None => None
            case Some(e) => Some(e.(required := e.required || (name in names && !e.hasDefault)))
  {
    if rs != [] {
      FindRequiring(rs[1..], names, name);
      assert Requiring(rs, names)[1..] == Requiring(rs[1..], names);
    }
  }

  lemma {:induction false} LessDistinct(rs: seq<Read>, names: set<string>)
    requires Distinct(rs)
    ensures Distinct(Less(rs, names))
  {
    if rs != [] {
      LessDistinct(rs[1..], names);
      var rest := Less(rs[1..], names);
      forall i | 0 <= i < |rest| ensures rest[i].name != rs[0].name {
        LessExactly(rs[1..], names, rest[i]);
        var j :| 0 <= j < |rs| - 1 && rs[1..][j] == rest[i];
        assert rs[j + 1].name != rs[0].name;
      }
    }
  }

  lemma DeclaredIsDistinct(s: Spec)
    requires Distinct(s.entries)
    ensures Distinct(Declared(s))
  {
    LessDistinct(s.entries, s.shapes);
    var kept := Less(s.entries, s.shapes);
    assert forall i :: 0 <= i < |kept| ==> Declared(s)[i].name == kept[i].name;
  }

  /** A compiled read is its kept declaration over the parameter of its name, or either alone. */
  lemma CompiledIs(s: Spec, r: Read)
    requires Registers(s)
    ensures r in Compiled(s) <==>
      && r.name !in s.filter
      && (|| (exists q :: q in Reflected(s, s.selector) && r == DeclaredOver(Find(Declared(s), q.name), q))
          || (Find(Declared(s), r.name) == Some(r) && r.name !in Names(Reflected(s, s.selector))))
  {
    var reflected, declared := Reflected(s, s.selector), Declared(s);
    var over := OverEach(reflected, declared);
    var left := Less(declared, Names(reflected));
    LessExactly(over + left, s.filter, r);
    LessExactly(declared, Names(reflected), r);
    DeclaredIsDistinct(s);
    FindExactly(declared, r.name);
    if q :| q in reflected && r == DeclaredOver(Find(declared, q.name), q) {
      var i :| 0 <= i < |reflected| && reflected[i] == q;
      assert over[i] == r;
    }
    if r in over {
      var i :| 0 <= i < |over| && over[i] == r;
      assert reflected[i] in reflected;
    }
  }

  /** What compiles: every name the selector takes and every kept declaration, less the filter's. */
  lemma CompiledNames(s: Spec, name: string)
    requires Registers(s)
    ensures (exists r :: r in Compiled(s) && r.name == name)
       <==> name !in s.filter && (Takes(s, s.selector, name) || Kept(s, name).Some?)
  {
    var reflected := Reflected(s, s.selector);
    ReflectedReads(s, s.selector, name);
    FindRequiring(Less(s.entries, s.shapes), RequiredBy(s, s.preconditions), name);
    FindExactly(Declared(s), name);
    if r :| r in Compiled(s) && r.name == name {
      CompiledIs(s, r);
      if q :| q in reflected && r == DeclaredOver(Find(Declared(s), q.name), q) {
        FindExactly(Declared(s), q.name);
      }
    }
    if q :| q in reflected && q.name == name && name !in s.filter {
      CompiledIs(s, DeclaredOver(Find(Declared(s), name), q));
    } else if Kept(s, name).Some? && name !in s.filter {
      NotReflected(reflected, name);
      CompiledIs(s, Find(Declared(s), name).value);
    }
  }

  lemma NotReflected(reflected: seq<Read>, name: string)
    ensures name in Names(reflected) <==> exists q :: q in reflected && q.name == name
  {
    if name in Names(reflected) {
      var i :| 0 <= i < |reflected| && reflected[i].name == name;
      assert reflected[i] in reflected;
    }
  }

  /** A compiled read is required exactly where its kept declaration says so; or, with no default declared, where
      the selector requires it, or a precondition does and it is declared. */
  lemma RequiredExactly(s: Spec, r: Read)
    requires Registers(s) && r in Compiled(s)
    ensures var kept := Kept(s, r.name);
            r.required <==>
              || (kept.Some? && kept.value.required)
              || ((kept.None? || !kept.value.hasDefault)
                  && (|| Requires(s, s.selector, r.name)
                      || (kept.Some? && exists fn :: fn in s.preconditions && Requires(s, fn, r.name))))
  {
    var reflected, name := Reflected(s, s.selector), r.name;
    ReflectedReads(s, s.selector, name);
    RequiredByExactly(s, name);
    FindRequiring(Less(s.entries, s.shapes), RequiredBy(s, s.preconditions), name);
    CompiledIs(s, r);
    NotReflected(reflected, name);
    FindExactly(Declared(s), name);
    if q :| q in reflected && r == DeclaredOver(Find(Declared(s), q.name), q) {
      FindExactly(Declared(s), q.name);
      OneOfAName(reflected, q);
    }
  }

  lemma OneOfAName(reflected: seq<Read>, q: Read)
    requires Distinct(reflected) && q in reflected
    ensures forall other :: other in reflected && other.name == q.name ==> other == q
  {
    forall other | other in reflected && other.name == q.name ensures other == q {
      var i :| 0 <= i < |reflected| && reflected[i] == q;
      var j :| 0 <= j < |reflected| && reflected[j] == other;
    }
  }

  lemma RequiredByExactly(s: Spec, name: string)
    ensures name in RequiredBy(s, s.preconditions) <==>
      exists fn :: fn in s.preconditions && Requires(s, fn, name)
  {
    forall fn | fn in s.preconditions
      ensures (exists r :: r in Reflected(s, fn) && r.name == name && r.required) <==> Requires(s, fn, name)
    {
      ReflectedReads(s, fn, name);
    }
  }

  /** A compiled read's default is its kept declaration's, or else that of an unmarked parameter of its name. */
  lemma DefaultExactly(s: Spec, r: Read)
    requires Registers(s) && r in Compiled(s)
    ensures r.hasDefault <==>
              if Kept(s, r.name).Some? then Kept(s, r.name).value.hasDefault
              else r.name !in s.skipped
                   && exists p :: p in s.selector.params && p.kind.Keyword? && p.name == r.name && p.hasDefault
                       && !p.marked
  {
    var reflected, name := Reflected(s, s.selector), r.name;
    ReflectedDefault(s, s.selector, name);
    FindRequiring(Less(s.entries, s.shapes), RequiredBy(s, s.preconditions), name);
    CompiledIs(s, r);
    NotReflected(reflected, name);
    FindExactly(Declared(s), name);
    if q :| q in reflected && r == DeclaredOver(Find(Declared(s), q.name), q) {
      FindExactly(Declared(s), q.name);
      OneOfAName(reflected, q);
    }
  }

  lemma ReflectedDefault(s: Spec, fn: Callable, name: string)
    ensures (exists r :: r in Reflected(s, fn) && r.name == name && r.hasDefault) <==>
      name !in s.skipped
      && exists p :: p in fn.params && p.kind.Keyword? && p.name == name && p.hasDefault && !p.marked
  {
    var asked := Asked(fn, s.openEnded);
    forall r ensures r in Reflected(s, fn) <==> exists p :: p in fn.params && r in ParamReads(p, asked, s.skipped) {
      ReflectedExactly(fn.params, asked, s.skipped, r);
    }
    forall p, r | p in fn.params && r in ParamReads(p, asked, s.skipped) && r.hasDefault
      ensures p.kind.Keyword? && p.name == r.name && p.hasDefault && !p.marked && p.name !in s.skipped
    {
      if p.kind.VarKeyword? {
        KeyReadsExactly(p.keys, s.skipped, r);
      }
    }
    forall p | p in fn.params && p.kind.Keyword? && p.name !in s.skipped
      ensures Read(p.name, (!p.hasDefault && asked) || p.marked, p.hasDefault && !p.marked)
           in ParamReads(p, asked, s.skipped)
    {
    }
  }

  /** The edge's own reasons, over the declarations and the parameters: a declaration says `required`; a callable
      marks the name `InputRequired`; one takes it by keyword with no default. */
  ghost predicate SaidRequired(s: Spec, name: string) {
    exists e :: e in s.entries && e.required && e.name == name
  }

  ghost predicate MarkedRequired(s: Spec, name: string) {
    exists fn, p :: fn in Callables(s) && p in fn.params && p.marked && p.name == name
  }

  ghost predicate TakenWithNoDefault(s: Spec, name: string) {
    exists fn, p :: fn in Callables(s) && p in fn.params && p.kind.Keyword? && !p.hasDefault && p.name == name
  }

  lemma RelaxedExactly(s: Spec, name: string)
    ensures name in RequiredForHavingNoDefault(s)
       <==> TakenWithNoDefault(s, name) && !MarkedRequired(s, name) && !SaidRequired(s, name)
  {
    if TakenWithNoDefault(s, name) && !MarkedRequired(s, name) {
      var fn, p :| fn in Callables(s) && p in fn.params && p.kind.Keyword? && !p.hasDefault && p.name == name;
      assert name in NoDefault(fn);
    }
    if MarkedRequired(s, name) {
      var fn, p :| fn in Callables(s) && p in fn.params && p.marked && p.name == name;
      assert name in InputRequired(fn);
    }
  }

  /** The edge relaxes exactly the right reads: of a spec with no `TypedDict` keys, a read stays required exactly
      where it compiled required and its declaration says so or a callable marks it `InputRequired`. Nothing
      else of a read moves. */
  lemma RelaxesExactlyTheRight(s: Spec, i: nat)
    requires Registers(s) && i < |Compiled(s)| && forall fn :: fn in Callables(s) ==> !TakesKeys(fn)
    ensures |Variant(s)| == |Compiled(s)|
    ensures var was, left := Compiled(s)[i], Variant(s)[i];
      && left.name == was.name && left.hasDefault == was.hasDefault
      && (left.required <==>
            was.required && (SaidRequired(s, was.name) || MarkedRequired(s, was.name)))
  {
    var was := Compiled(s)[i];
    VariantMovesRequired(s, i);
    RelaxedExactly(s, was.name);
    if was.required && was.name !in SayingRequired(s.entries) {
      CompiledRequired(s, was);
      if q :| q in Reflected(s, s.selector) && q.name == was.name && q.required {
        RequiredForAReason(s, s.selector, q);
        assert s.selector in Callables(s);
      } else {
        var fn, q :| fn in s.preconditions && q in Reflected(s, fn) && q.required && q.name == was.name;
        assert fn in Callables(s);
        RequiredForAReason(s, fn, q);
      }
    }
  }

  lemma VariantMovesRequired(s: Spec, i: nat)
    requires i < |Compiled(s)|
    ensures |Variant(s)| == |Compiled(s)|
    ensures Variant(s)[i]
         == Compiled(s)[i].(required := Compiled(s)[i].required
                            && Compiled(s)[i].name !in RequiredForHavingNoDefault(s))
  {
  }

  /** With `TypedDict` keys, a required read is also kept where no callable takes the name as a keyword parameter
      with no default. */
  lemma RelaxesByKeywordAlone(s: Spec, i: nat)
    requires i < |Compiled(s)|
    ensures |Variant(s)| == |Compiled(s)|
    ensures var was, left := Compiled(s)[i], Variant(s)[i];
      left.required <==>
      was.required && (SaidRequired(s, was.name) || MarkedRequired(s, was.name) || !TakenWithNoDefault(s, was.name))
  {
    VariantMovesRequired(s, i);
    RelaxedExactly(s, Compiled(s)[i].name);
  }

  /** A selector requiring a key of its `TypedDict`, beside a precondition taking it as a keyword. */
  function KeyBesideAKeyword(): Spec {
    Spec(Callable([Param("rest", VarKeyword, false, false, [Key("k", true, false)])], false),
         [Callable([Param("k", Keyword, false, false, [])], false)], [], {}, {}, {}, false)
  }

  /** Such a key compiles required and is relaxed, where a key no callable takes by keyword is kept. */
  lemma AKeyBesideAKeywordIsRelaxed()
    ensures var s := KeyBesideAKeyword();
            Registers(s) && Compiled(s) == [Read("k", true, false)] && Variant(s) == [Read("k", false, false)]
  {
    var s := KeyBesideAKeyword();
    var key := Key("k", true, false);
    var selector, precondition := s.selector, s.preconditions[0];
    assert KeyReads([key], {}) == [Read("k", true, false)];
    assert selector.params[..0] == [];
    assert Reflected(s, selector) == [Read("k", true, false)];
    assert Less(s.entries, s.shapes) == [] && Declared(s) == [];
    assert Merged([Read("k", true, false)], [], {}) == [Read("k", true, false)];
    assert precondition in Callables(s) && precondition.params[0] in precondition.params;
    assert "k" in NoDefault(precondition);
    forall fn | fn in Callables(s) ensures InputRequired(fn) == {} {
    }
    assert "k" in RequiredForHavingNoDefault(s);
    VariantMovesRequired(s, 0);
  }
}
