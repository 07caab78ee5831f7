/**
  The walk that turns a serializer declaration into a JSON Schema: how it is
  bounded, and what its bounds cost.
*/
module SchemaWalk {
  import opened Prelude
  import opened Declarations

  /** `Open` is the truncated node: an object whose keys the schema declines to name. */
  datatype Schema =
    | Leaf(jsonType: Option<string>)
    | ChoiceOf(valueType: Option<string>)
    | ChoicesOf(valueType: Option<string>)
    | Fragment(rule: int)
    | Array(items: Schema)
    | Open
    | Object(properties: seq<Property>, required: seq<string>)

  datatype Property = Property(name: string, schema: Schema, default: Option<int>)

  /** What one walk is asked: the declaration, the registry's field rules and the direction. */
  datatype Walk = Walk(decl: Declaration, rule: Field -> Option<int>, forOutput: bool)

  function AlwaysRendered(f: Field): (b: bool)
  {
    f.required || f.default != NoDefault || f.allowNull
  }

  /** What DRF does where an instance lacks the field's attribute: substitutes the default, emits a null, skips the
      field's key, or raises. */
  datatype Fallback = Substituted | Null | KeySkipped | Raised

  function WhenMissing(f: Field): Fallback {
    if f.default != NoDefault then Substituted
    else if f.allowNull then Null
    else if !f.required then KeySkipped
    else Raised
  }

  /** A field is said to be always rendered exactly where DRF never skips its key. */
  lemma AlwaysRenderedExactly(f: Field)
    ensures AlwaysRendered(f) <==> WhenMissing(f) != KeySkipped
  {
  }

  function PublishableDefault(f: Field): (d: Option<int>)
  {
    if f.default.Literal? && f.default.jsonNative then Some(f.default.value) else None
  }

  predicate Skipped(w: Walk, f: Field) {
    if w.forOutput then f.writeOnly else f.readOnly
  }

  predicate Required(w: Walk, f: Field) {
    if w.forOutput then AlwaysRendered(f) else f.required
  }

  function PropertyOf(w: Walk, nf: Named, schema: Schema): Property {
    Property(nf.name, schema, if w.forOutput then None else PublishableDefault(nf.field))
  }

  /** Whether the walk stops at a serializer of class `c` reached under `path`. */
  predicate Truncates(c: Class, maxDepth: Option<int>, path: seq<Class>) {
    Count(path, c) >= MAX_APPEARANCES || (maxDepth.Some? && |path| >= maxDepth.value)
  }

  function FieldToSchema(w: Walk, f: Field, maxDepth: Option<int>, path: seq<Class>): Schema
    requires w.decl.Valid() && PathOk(w.decl.classes, path)
    decreases Room(w.decl.classes, path), 1, f
  {
    if w.rule(f).Some? then Fragment(w.rule(f).value)
    else
      match f.kind
      case ListOf(None) => Array(Leaf(None))
      case ListOf(Some(child)) => Array(FieldToSchema(w, child, maxDepth, path))
      case Many(row) => Array(SerializerToSchema(w, row, maxDepth, path))
      case Nested(serializer) => SerializerToSchema(w, serializer, maxDepth, path)
      case _ => LeafSchema(f.kind)
  }

  /** The schema of a field with no field inside it; `{}` where no table names a type. */
  function LeafSchema(kind: Kind): Schema {
    match kind
    case Scalar(jsonType) => Leaf(jsonType)
    case Choice(valueType) => ChoiceOf(valueType)
    case MultipleChoice(valueType) => ChoicesOf(valueType)
    case _ => Leaf(None)
  }

  function SerializerToSchema(w: Walk, n: Node, maxDepth: Option<int>, path: seq<Class>): Schema
    requires w.decl.Valid() && PathOk(w.decl.classes, path)
    decreases Room(w.decl.classes, path), 0
  {
    var c := w.decl.cls(n);
    if Truncates(c, maxDepth, path) then Open
    else
      RoomShrinks(w.decl.classes, path, c);
      Object(Properties(w, w.decl.fields(n), maxDepth, path + [c]), RequiredNames(w, w.decl.fields(n)))
  }

  function Properties(w: Walk, fs: seq<Named>, maxDepth: Option<int>, path: seq<Class>): (ps: seq<Property>)
    requires w.decl.Valid() && PathOk(w.decl.classes, path)
    decreases Room(w.decl.classes, path), 2, |fs|
  {
    if fs == [] then []
    else
      var rest := Properties(w, fs[1..], maxDepth, path);
      if Skipped(w, fs[0].field) then rest
      else [PropertyOf(w, fs[0], FieldToSchema(w, fs[0].field, maxDepth, path))] + rest
  }

  function RequiredNames(w: Walk, fs: seq<Named>): (names: seq<string>)
  {
    if fs == [] then []
    else
      (if !Skipped(w, fs[0].field) && Required(w, fs[0].field) then [fs[0].name] else [])
      + RequiredNames(w, fs[1..])
  }

  /** One more field described adds its property, where it has one, and its name, where that is required. */
  lemma {:induction false} OneMoreField(w: Walk, fs: seq<Named>, nf: Named, maxDepth: Option<int>, path: seq<Class>)
    requires w.decl.Valid() && PathOk(w.decl.classes, path)
    ensures Properties(w, fs + [nf], maxDepth, path)
         == Properties(w, fs, maxDepth, path)
            + (if Skipped(w, nf.field) then [] else [PropertyOf(w, nf, FieldToSchema(w, nf.field, maxDepth, path))])
    ensures RequiredNames(w, fs + [nf])
         == RequiredNames(w, fs) + (if !Skipped(w, nf.field) && Required(w, nf.field) then [nf.name] else [])
    decreases |fs|
  {
    if fs == [] {
      assert fs + [nf] == [nf] && [nf][1..] == [];
    } else {
      assert (fs + [nf])[1..] == fs[1..] + [nf];
      OneMoreField(w, fs[1..], nf, maxDepth, path);
    }
  }

  // --- the walk as it runs: a loop filling `properties` and `required`, inside the recursion

  method DescribeField(w: Walk, f: Field, maxDepth: Option<int>, path: seq<Class>) returns (schema: Schema)
    requires w.decl.Valid() && PathOk(w.decl.classes, path)
    ensures schema == FieldToSchema(w, f, maxDepth, path)
    decreases Room(w.decl.classes, path), 1, f
  {
    var rule := w.rule(f);
    if rule.Some? {
      return Fragment(rule.value);
    }
    match f.kind
    case ListOf(None) =>
      schema := Array(Leaf(None));
    case ListOf(Some(child)) =>
      var items := DescribeField(w, child, maxDepth, path);
      schema := Array(items);
    case Many(row) =>
      var items := DescribeSerializer(w, row, maxDepth, path);
      schema := Array(items);
    case Nested(serializer) =>
      schema := DescribeSerializer(w, serializer, maxDepth, path);
    case _ =>
      schema := LeafSchema(f.kind);
  }

  /** Terminates on every declaration over finitely many classes, however it nests. */
  method DescribeSerializer(w: Walk, n: Node, maxDepth: Option<int>, path: seq<Class>) returns (schema: Schema)
    requires w.decl.Valid() && PathOk(w.decl.classes, path)
    ensures schema == SerializerToSchema(w, n, maxDepth, path)
    decreases Room(w.decl.classes, path), 0
  {
    var c := w.decl.cls(n);
    if Truncates(c, maxDepth, path) {
      return Open;
    }
    RoomShrinks(w.decl.classes, path, c);
    var properties, required := FillProperties(w, w.decl.fields(n), maxDepth, path + [c]);
    schema := Object(properties, required);
  }

  /** Its loop over the serializer's fields. */
  method FillProperties(w: Walk, fields: seq<Named>, maxDepth: Option<int>, path: seq<Class>)
    returns (properties: seq<Property>, required: seq<string>)
    requires w.decl.Valid() && PathOk(w.decl.classes, path)
    ensures properties == Properties(w, fields, maxDepth, path) && required == RequiredNames(w, fields)
    decreases Room(w.decl.classes, path), 2
  {
    properties, required := [], [];
    for i := 0 to |fields|
      invariant properties == Properties(w, fields[..i], maxDepth, path)
      invariant required == RequiredNames(w, fields[..i])
    {
      var nf := fields[i];
      assert fields[..i + 1] == fields[..i] + [nf];
      OneMoreField(w, fields[..i], nf, maxDepth, path);
      if Skipped(w, nf.field) {
        continue;
      }
      var fragment := DescribeField(w, nf.field, maxDepth, path);
      properties := properties + [PropertyOf(w, nf, fragment)];
      if Required(w, nf.field) {
        required := required + [nf.name];
      }
    }
    assert fields[..|fields|] == fields;
  }

  // --- truncation is exact

  /** `schema`, whose root sits at `level`, with every serializer node at `depth` or deeper opened. */
  function CutBelow(schema: Schema, level: nat, depth: int): Schema
    decreases schema
  {
    match schema
    case Object(properties, required) =>
      if level >= depth then Open else Object(CutProperties(properties, level + 1, depth), required)
    case Array(items) => Array(CutBelow(items, level, depth))
    case _ => schema
  }

  function CutProperties(ps: seq<Property>, level: nat, depth: int): seq<Property>
    decreases ps
  {
    if ps == [] then []
    else [ps[0].(schema := CutBelow(ps[0].schema, level, depth))] + CutProperties(ps[1..], level, depth)
  }

  /** The walk under `max_depth` is the walk with no depth, each serializer node that deep cut open. */
  lemma {:induction false} TruncationIsExact(w: Walk, n: Node, depth: int, path: seq<Class>)
    requires w.decl.Valid() && PathOk(w.decl.classes, path)
    ensures SerializerToSchema(w, n, Some(depth), path)
         == CutBelow(SerializerToSchema(w, n, None, path), |path|, depth)
    decreases Room(w.decl.classes, path), 0
  {
    var c := w.decl.cls(n);
    if Count(path, c) < MAX_APPEARANCES {
      RoomShrinks(w.decl.classes, path, c);
      PropertiesTruncate(w, w.decl.fields(n), depth, path + [c]);
    }
  }

  lemma {:induction false} FieldTruncates(w: Walk, f: Field, depth: int, path: seq<Class>)
    requires w.decl.Valid() && PathOk(w.decl.classes, path)
    ensures FieldToSchema(w, f, Some(depth), path) == CutBelow(FieldToSchema(w, f, None, path), |path|, depth)
    decreases Room(w.decl.classes, path), 1, f
  {
    if w.rule(f).None? {
      match f.kind
      case ListOf(Some(child)) => FieldTruncates(w, child, depth, path);
      case Many(row) => TruncationIsExact(w, row, depth, path);
      case Nested(serializer) => TruncationIsExact(w, serializer, depth, path);
      case _ =>
    }
  }

  lemma {:induction false} PropertiesTruncate(w: Walk, fs: seq<Named>, depth: int, path: seq<Class>)
    requires w.decl.Valid() && PathOk(w.decl.classes, path)
    ensures Properties(w, fs, Some(depth), path) == CutProperties(Properties(w, fs, None, path), |path|, depth)
    decreases Room(w.decl.classes, path), 2, |fs|
  {
    if fs != [] {
      PropertiesTruncate(w, fs[1..], depth, path);
      if !Skipped(w, fs[0].field) {
        FieldTruncates(w, fs[0].field, depth, path);
      }
    }
  }

  // --- how deep a schema can be

  /** How many serializer objects nest inside one another in `schema`. */
  function Nesting(schema: Schema): nat
    decreases schema
  {
    match schema
    case Object(properties, _) => 1 + NestingOf(properties)
    case Array(items) => Nesting(items)
    case _ => 0
  }

  function NestingOf(ps: seq<Property>): nat
    decreases ps
  {
    if ps == [] then 0
    else
      var here, rest := Nesting(ps[0].schema), NestingOf(ps[1..]);
      if here > rest then here else rest
  }

  /** No schema nests deeper than four times the classes, or than the depth asked for. */
  lemma {:induction false} NestingIsBounded(w: Walk, n: Node, maxDepth: Option<int>, path: seq<Class>)
    requires w.decl.Valid() && PathOk(w.decl.classes, path)
    ensures Nesting(SerializerToSchema(w, n, maxDepth, path)) <= Room(w.decl.classes, path)
    ensures maxDepth.Some? && |path| <= maxDepth.value
        ==> Nesting(SerializerToSchema(w, n, maxDepth, path)) <= maxDepth.value - |path|
    decreases Room(w.decl.classes, path), 0
  {
    var c := w.decl.cls(n);
    if !Truncates(c, maxDepth, path) {
      RoomShrinks(w.decl.classes, path, c);
      PropertiesNesting(w, w.decl.fields(n), maxDepth, path + [c]);
    }
  }

  lemma {:induction false} FieldNesting(w: Walk, f: Field, maxDepth: Option<int>, path: seq<Class>)
    requires w.decl.Valid() && PathOk(w.decl.classes, path)
    ensures Nesting(FieldToSchema(w, f, maxDepth, path)) <= Room(w.decl.classes, path)
    ensures maxDepth.Some? && |path| <= maxDepth.value
        ==> Nesting(FieldToSchema(w, f, maxDepth, path)) <= maxDepth.value - |path|
    decreases Room(w.decl.classes, path), 1, f
  {
    if w.rule(f).None? {
      match f.kind
      case ListOf(Some(child)) => FieldNesting(w, child, maxDepth, path);
      case Many(row) => NestingIsBounded(w, row, maxDepth, path);
      case Nested(serializer) => NestingIsBounded(w, serializer, maxDepth, path);
      case _ =>
    }
  }

  lemma {:induction false} PropertiesNesting(w: Walk, fs: seq<Named>, maxDepth: Option<int>, path: seq<Class>)
    requires w.decl.Valid() && PathOk(w.decl.classes, path)
    ensures NestingOf(Properties(w, fs, maxDepth, path)) <= Room(w.decl.classes, path)
    ensures maxDepth.Some? && |path| <= maxDepth.value
        ==> NestingOf(Properties(w, fs, maxDepth, path)) <= maxDepth.value - |path|
    decreases Room(w.decl.classes, path), 2, |fs|
  {
    if fs != [] {
      PropertiesNesting(w, fs[1..], maxDepth, path);
      if !Skipped(w, fs[0].field) {
        FieldNesting(w, fs[0].field, maxDepth, path);
      }
    }
  }

  // --- when nothing is lost

  /** `s` is the whole of what serializer `n` declares, every nested serializer unfolded. */
  ghost predicate Unfolds(w: Walk, n: Node, s: Schema)
    decreases s, 1
  {
    && s.Object?
    && s.required == RequiredNames(w, w.decl.fields(n))
    && UnfoldsFields(w, w.decl.fields(n), s.properties)
  }

  /** One choice is one value, several a set of them, each of the choices' type; only a scalar is of a type else. */
  ghost predicate PublishesLeaf(kind: Kind, s: Schema) {
    match kind
    case Choice(_) => s.ChoiceOf? && s.valueType == kind.valueType
    case MultipleChoice(_) => s.ChoicesOf? && s.valueType == kind.valueType
    case _ => s.Leaf? && s.jsonType == if kind.Scalar? then kind.jsonType else None
  }

  /** A default is published of an input alone, where it is a literal JSON can hold. */
  ghost predicate PublishesDefault(w: Walk, f: Field, default: Option<int>) {
    && (default.Some? <==> !w.forOutput && f.default.Literal? && f.default.jsonNative)
    && (default.Some? ==> default.value == f.default.value)
  }

  ghost predicate UnfoldsField(w: Walk, f: Field, s: Schema)
    decreases s, 2
  {
    if w.rule(f).Some? then s == Fragment(w.rule(f).value)
    else
      match f.kind
      case ListOf(None) => s == Array(Leaf(None))
      case ListOf(Some(child)) => s.Array? && UnfoldsField(w, child, s.items)
      case Many(row) => s.Array? && Unfolds(w, row, s.items)
      case Nested(serializer) => Unfolds(w, serializer, s)
      case _ => PublishesLeaf(f.kind, s)
  }

  ghost predicate UnfoldsFields(w: Walk, fs: seq<Named>, ps: seq<Property>)
    decreases ps, 0, |fs|
  {
    if fs == [] then ps == []
    else if Skipped(w, fs[0].field) then UnfoldsFields(w, fs[1..], ps)
    else
      && ps != []
      && ps[0].name == fs[0].name && PublishesDefault(w, fs[0].field, ps[0].default)
      && UnfoldsField(w, fs[0].field, ps[0].schema)
      && UnfoldsFields(w, fs[1..], ps[1..])
  }

  /** No class is on a path of the unfolding `s` more than four times, counting those on `path`. */
  ghost predicate RepeatsWithin(w: Walk, n: Node, s: Schema, path: seq<Class>)
    requires Unfolds(w, n, s)
    decreases s, 1
  {
    var c := w.decl.cls(n);
    Count(path, c) < 4 && RepeatsWithinFields(w, w.decl.fields(n), s.properties, path + [c])
  }

  ghost predicate RepeatsWithinField(w: Walk, f: Field, s: Schema, path: seq<Class>)
    requires UnfoldsField(w, f, s)
    decreases s, 2
  {
    w.rule(f).None? ==>
      match f.kind
      case ListOf(Some(child)) => RepeatsWithinField(w, child, s.items, path)
      case Many(row) => RepeatsWithin(w, row, s.items, path)
      case Nested(serializer) => RepeatsWithin(w, serializer, s, path)
      case _ => true
  }

  ghost predicate RepeatsWithinFields(w: Walk, fs: seq<Named>, ps: seq<Property>, path: seq<Class>)
    requires UnfoldsFields(w, fs, ps)
    decreases ps, 0, |fs|
  {
    fs != [] ==>
      if Skipped(w, fs[0].field) then RepeatsWithinFields(w, fs[1..], ps, path)
      else
        RepeatsWithinField(w, fs[0].field, ps[0].schema, path) && RepeatsWithinFields(w, fs[1..], ps[1..], path)
  }

  predicate Complete(s: Schema)
    decreases s
  {
    match s
    case Open => false
    case Object(properties, _) => forall p :: p in properties ==> Complete(p.schema)
    case Array(items) => Complete(items)
    case _ => true
  }

  /** `s` is the declaration's full unfolding, no class more than four times on any of its paths. */
  ghost predicate FullWithin(w: Walk, n: Node, s: Schema, path: seq<Class>) {
    Unfolds(w, n, s) && RepeatsWithin(w, n, s, path)
  }

  /** The walk publishes `s` with nothing truncated exactly where `s` is the declaration's full
      unfolding and no class repeats more than four times on any path of it. */
  lemma {:induction false} DescribedInFull(w: Walk, n: Node, s: Schema, path: seq<Class>)
    requires w.decl.Valid() && PathOk(w.decl.classes, path)
    ensures FullWithin(w, n, s, path) <==> SerializerToSchema(w, n, None, path) == s && Complete(s)
    decreases s, 1
  {
    var c := w.decl.cls(n);
    if Count(path, c) < MAX_APPEARANCES && s.Object? {
      RoomShrinks(w.decl.classes, path, c);
      FieldsInFull(w, w.decl.fields(n), s.properties, path + [c]);
    }
  }

  lemma {:induction false} FieldInFull(w: Walk, f: Field, s: Schema, path: seq<Class>)
    requires w.decl.Valid() && PathOk(w.decl.classes, path)
    ensures UnfoldsField(w, f, s) && RepeatsWithinField(w, f, s, path)
       <==> FieldToSchema(w, f, None, path) == s && Complete(s)
    decreases s, 2
  {
    if w.rule(f).None? {
      match f.kind
      case ListOf(Some(child)) =>
        if s.Array? { FieldInFull(w, child, s.items, path); }
      case Many(row) =>
        if s.Array? { DescribedInFull(w, row, s.items, path); }
      case Nested(serializer) => DescribedInFull(w, serializer, s, path);
      case _ =>
    }
  }

  lemma {:induction false} FieldsInFull(w: Walk, fs: seq<Named>, ps: seq<Property>, path: seq<Class>)
    requires w.decl.Valid() && PathOk(w.decl.classes, path)
    ensures UnfoldsFields(w, fs, ps) && RepeatsWithinFields(w, fs, ps, path)
       <==> Properties(w, fs, None, path) == ps && forall p :: p in ps ==> Complete(p.schema)
    decreases ps, 0, |fs|
  {
    if fs != [] {
      if Skipped(w, fs[0].field) {
        FieldsInFull(w, fs[1..], ps, path);
      } else if ps != [] {
        FieldInFull(w, fs[0].field, ps[0].schema, path);
        FieldsInFull(w, fs[1..], ps[1..], path);
        assert ps == [ps[0]] + ps[1..];
      }
    }
  }

  // --- what the allowance of four is sized for

  /** The standard bounded form: one class, each instance nesting the next until the count runs out. */
  const COUNTDOWN := Declaration(1, (n: Node) => 0, (n: Node) =>
    if n == 0 then []
    else [Named("child", Field(Nested(n - 1), false, false, true, NoDefault, false))])

  const COUNTDOWN_WALK := Walk(COUNTDOWN, f => None, false)

  /** A countdown is published as written exactly up to three levels below its root; the next is cut. */
  lemma {:induction false} CountdownSurvives(left: nat, path: seq<Class>)
    requires PathOk(1, path) && Count(path, 0) < MAX_APPEARANCES
    ensures Complete(SerializerToSchema(COUNTDOWN_WALK, left, None, path))
       <==> Count(path, 0) + left <= 3
    decreases left
  {
    RoomShrinks(1, path, 0);
    CountAppend(path, [0], 0);
    if left > 0 {
      var w, inside := COUNTDOWN_WALK, path + [0];
      var fields := w.decl.fields(left);
      var child := FieldToSchema(w, fields[0].field, None, inside);
      assert !Skipped(w, fields[0].field) && fields[1..] == [];
      assert Properties(w, fields, None, inside) == [PropertyOf(w, fields[0], child)]
          + Properties(w, fields[1..], None, inside);
      var whole := SerializerToSchema(w, left, None, path);
      assert whole.properties[0].schema == child && |whole.properties| == 1;
      assert Complete(whole) <==> Complete(child);
      assert child == SerializerToSchema(w, left - 1, None, inside);
      if Count(inside, 0) < MAX_APPEARANCES {
        CountdownSurvives(left - 1, inside);
      }
    }
  }
}
