/**
  The walks agree: with no registry rule, the schema, the presenter's Output and
  the input walk's Parameters describe the same fields in the same order, mark
  the same ones required, and are truncated at the same nodes.
*/
module WalkAgreement {
  import opened Prelude
  import opened Declarations
  import opened SchemaWalk
  import opened FieldWalks

  function NoRule(f: Field): Option<int> { None }

  function OutputWalk(d: Declaration): Walk { Walk(d, NoRule, true) }

  function InputWalk(d: Declaration): Walk { Walk(d, NoRule, false) }

  /** Whether the field is listed by the kernel's side of the walk: a `HiddenField` is no parameter. */
  predicate Listed(w: Walk, f: Field) {
    !Skipped(w, f) && (w.forOutput || f.kind != Hidden)
  }

  /** Whether an entry of `f` is marked present; `shaped` marks none. */
  predicate Marked(w: Walk, f: Field, shaped: bool) {
    !shaped && Required(w, f)
  }

  /** The schema `s` and the block `b` describe serializer `n` alike, at every depth. */
  ghost predicate Agree(w: Walk, n: Node, s: Schema, b: Block, shaped: bool)
    decreases s, 1
  {
    && s.Object?
    && s.required == RequiredNames(w, w.decl.fields(n))
    && AgreeFields(w, w.decl.fields(n), s.properties, b.entries, shaped)
  }

  /** Field by field, in declaration order. A property the kernel's side does not list is passed over. */
  ghost predicate AgreeFields(w: Walk, fs: seq<Named>, ps: seq<Property>, es: seq<Entry>, shaped: bool)
    decreases ps, 0, |fs|
  {
    if fs == [] then ps == [] && es == []
    else if Skipped(w, fs[0].field) then AgreeFields(w, fs[1..], ps, es, shaped)
    else
      && ps != [] && ps[0].name == fs[0].name
      && if !Listed(w, fs[0].field) then AgreeFields(w, fs[1..], ps[1..], es, shaped)
         else
           && es != [] && es[0].name == fs[0].name
           && es[0].always == Marked(w, fs[0].field, shaped)
           && AgreeField(w, fs[0].field, ps[0].schema, es[0].shape, shaped)
           && AgreeFields(w, fs[1..], ps[1..], es[1..], shaped)
  }

  /** A kernel's shape of one value of a type; a parameter of no single type is of `any`. */
  function OneValue(w: Walk, jsonType: Option<string>): Shape {
    Shape(if jsonType.None? && !w.forOutput then Some("any") else jsonType, None, NoItems)
  }

  /** A field with no field inside it: the type published, and the kernel's shape of it. One choice is published
      beside the shape of one value of its type, several beside an array of them. The schema names no type for a
      dict, a file, a duration or a set of keys, though the kernel's side names one. */
  ghost predicate AgreeLeaf(w: Walk, kind: Kind, s: Schema, shape: Shape) {
    match kind
    case Scalar(jsonType) => s == Leaf(jsonType) && shape == OneValue(w, jsonType)
    case Choice(valueType) => s == ChoiceOf(valueType) && shape == OneValue(w, valueType)
    case MultipleChoice(valueType) => s == ChoicesOf(valueType) && shape == Shape(ARRAY, None, TypeItems(valueType))
    case ManyRelated => s == Leaf(None) && shape == Shape(ARRAY, None, NoItems)
    case Dict => s == Leaf(None) && shape == Shape(OBJECT, None, NoItems)
    case File => s == Leaf(None) && shape == OneValue(w, if w.forOutput then None else Some("file"))
    case Duration => s == Leaf(None) && shape == OneValue(w, if w.forOutput then None else Some("string"))
    case Hidden => s == Leaf(None) && shape == OneValue(w, None)
    case _ => false
  }

  /** What an array's items say of an element of that shape: its type, where it has one. A parameter's say nothing
      of an element that is several values. */
  function ElementType(w: Walk, kind: Kind, element: Shape): Items {
    if !w.forOutput && (kind.MultipleChoice? || kind.ManyRelated? || element.jsonType == Some("any")) then NoItems
    else TypeItems(element.jsonType)
  }

  /** One field: a serializer is truncated on both sides or neither, and a list's element is compared too; the
      kernel's array names no element of a list of lists. */
  ghost predicate AgreeField(w: Walk, f: Field, s: Schema, shape: Shape, shaped: bool)
    decreases s, 3
  {
    match f.kind
    case Nested(n) =>
      && shape.jsonType == OBJECT && shape.items == NoItems
      && s.Open? == shape.fields.None?
      && (shape.fields.Some? ==> Agree(w, n, s, shape.fields.value, shaped))
    case Many(row) => s.Array? && shape.jsonType == ARRAY && AgreeRows(w, row, s.items, shape.items, shaped)
    case ListOf(None) => s == Array(Leaf(None)) && shape == Shape(ARRAY, None, NoItems)
    case ListOf(Some(child)) =>
      && s.Array? && shape.jsonType == ARRAY && shape.fields == None
      && (match child.kind
          case Nested(n) => AgreeRows(w, n, s.items, shape.items, shaped)
          case ListOf(_) => s.items.Array? && shape.items == TypeName("array")
          case Many(_) => s.items.Array? && shape.items == TypeName("array")
          case _ =>
            exists element ::
              AgreeLeaf(w, child.kind, s.items, element) && shape.items == ElementType(w, child.kind, element))
    case _ => AgreeLeaf(w, f.kind, s, shape)
  }

  ghost predicate AgreeRows(w: Walk, row: Node, s: Schema, items: Items, shaped: bool)
    decreases s, 2
  {
    if s.Open? then items == TypeName("object")
    else items.Rows? && Agree(w, row, s, items.block, shaped)
  }

  predicate IsLeaf(kind: Kind) { !kind.Nested? && !kind.Many? && !kind.ListOf? }

  /** The type a schema names, and the one it names for an array's elements. */
  function PublishedType(s: Schema): Option<string> {
    match s
    case Leaf(jsonType) => jsonType
    case ChoiceOf(valueType) => valueType
    case ChoicesOf(_) => ARRAY
    case Array(_) => ARRAY
    case Object(_, _) => OBJECT
    case Open => OBJECT
    case Fragment(_) => None
  }

  /** Whatever type the schema names for a field the kernel's side names too; it names one the schema does not
      for a dict, a set of keys, and of a parameter a file, a duration and `any`. */
  lemma TypesAgree(w: Walk, f: Field, s: Schema, shape: Shape, shaped: bool)
    requires AgreeField(w, f, s, shape, shaped)
    ensures PublishedType(s).Some? ==> shape.jsonType == PublishedType(s)
    ensures PublishedType(s).None? && shape.jsonType.Some? ==>
              || f.kind in {Dict, ManyRelated}
              || (!w.forOutput && (f.kind in {File, Duration} || shape.jsonType == Some("any")))
    ensures f.kind.MultipleChoice? ==> s.ChoicesOf? && shape.items == TypeItems(s.valueType)
    ensures f.kind.Choice? ==> s.ChoiceOf? && shape.items == NoItems
  {
  }

  /** What agreement says of one level: the same names in the same order less the hidden ones, and,
      where nothing is hidden and the output is not shaped, the same required names. */
  lemma {:induction false} AgreeingNames(w: Walk, fs: seq<Named>, ps: seq<Property>, es: seq<Entry>, shaped: bool)
    requires AgreeFields(w, fs, ps, es, shaped)
    ensures PropertyNames(ps) == EntryNames(es)
       <==> forall nf :: nf in fs && !Skipped(w, nf.field) ==> Listed(w, nf.field)
    ensures |es| <= |ps|
    ensures !shaped && |es| == |ps| ==> AlwaysNames(es) == RequiredNames(w, fs)
    decreases ps, |fs|
  {
    if fs != [] {
      assert fs == [fs[0]] + fs[1..];
      if Skipped(w, fs[0].field) {
        AgreeingNames(w, fs[1..], ps, es, shaped);
      } else if Listed(w, fs[0].field) {
        AgreeingNames(w, fs[1..], ps[1..], es[1..], shaped);
        assert PropertyNames(ps) == [ps[0].name] + PropertyNames(ps[1..]);
        assert EntryNames(es) == [es[0].name] + EntryNames(es[1..]);
        assert PropertyNames(ps[1..]) == PropertyNames(ps)[1..] && EntryNames(es[1..]) == EntryNames(es)[1..];
      } else {
        AgreeingNames(w, fs[1..], ps[1..], es, shaped);
      }
    }
  }

  function PropertyNames(ps: seq<Property>): seq<string> { seq(|ps|, i requires 0 <= i < |ps| => ps[i].name) }

  function EntryNames(es: seq<Entry>): seq<string> { seq(|es|, i requires 0 <= i < |es| => es[i].name) }

  function AlwaysNames(es: seq<Entry>): seq<string> {
    if es == [] then [] else (if es[0].always then [es[0].name] else []) + AlwaysNames(es[1..])
  }

  // --- the output direction

  /** The output schema and the presenter's Output agree, for every declaration and every path. */
  lemma {:induction false} OutputsAgree(d: Declaration, n: Node, path: seq<Class>)
    requires d.Valid() && PathOk(d.classes, path) && Count(path, d.cls(n)) < MAX_APPEARANCES
    ensures Agree(OutputWalk(d), n, SerializerToSchema(OutputWalk(d), n, None, path), OutputOf(d, n, path), false)
    decreases Room(d.classes, path), 0
  {
    RoomShrinks(d.classes, path, d.cls(n));
    OutputFieldsAgree(d, d.fields(n), path + [d.cls(n)]);
  }

  lemma {:induction false} OutputFieldsAgree(d: Declaration, fs: seq<Named>, path: seq<Class>)
    requires d.Valid() && PathOk(d.classes, path)
    ensures AgreeFields(OutputWalk(d), fs, Properties(OutputWalk(d), fs, None, path), OutputFields(d, fs, path), false)
    decreases Room(d.classes, path), 3, |fs|
  {
    if fs != [] {
      OutputFieldsAgree(d, fs[1..], path);
      if !fs[0].field.writeOnly {
        OutputFieldAgrees(d, fs[0].field, path);
        assert Properties(OutputWalk(d), fs, None, path)[1..] == Properties(OutputWalk(d), fs[1..], None, path);
        assert OutputFields(d, fs, path)[1..] == OutputFields(d, fs[1..], path);
      }
    }
  }

  lemma {:induction false} OutputFieldAgrees(d: Declaration, f: Field, path: seq<Class>)
    requires d.Valid() && PathOk(d.classes, path)
    ensures AgreeField(OutputWalk(d), f, FieldToSchema(OutputWalk(d), f, None, path), OutputShape(d, f, path), false)
    decreases Room(d.classes, path), 2, f
  {
    match f.kind
    case Nested(n) => OutputSerializerAgrees(d, n, path);
    case Many(row) => OutputSerializerAgrees(d, row, path);
    case ListOf(Some(child)) =>
      if IsLeaf(child.kind) {
        OutputLeavesAgree(d, f, child, path);
      } else {
        OutputFieldAgrees(d, child, path);
      }
    case ListOf(None) =>
    case _ => OutputLeafAgrees(d, f, path);
  }

  lemma OutputLeafAgrees(d: Declaration, f: Field, path: seq<Class>)
    requires d.Valid() && PathOk(d.classes, path) && IsLeaf(f.kind)
    ensures AgreeLeaf(OutputWalk(d), f.kind, FieldToSchema(OutputWalk(d), f, None, path), OutputShape(d, f, path))
  {
  }

  lemma OutputLeavesAgree(d: Declaration, f: Field, child: Field, path: seq<Class>)
    requires d.Valid() && PathOk(d.classes, path) && f.kind == ListOf(Some(child)) && IsLeaf(child.kind)
    ensures AgreeField(OutputWalk(d), f, FieldToSchema(OutputWalk(d), f, None, path), OutputShape(d, f, path), false)
  {
    OutputLeafAgrees(d, child, path);
  }

  lemma {:induction false} OutputSerializerAgrees(d: Declaration, n: Node, path: seq<Class>)
    requires d.Valid() && PathOk(d.classes, path)
    ensures var s := SerializerToSchema(OutputWalk(d), n, None, path);
            var shape := SerializerShape(d, n, path);
            && s.Open? == shape.fields.None?
            && (shape.fields.Some? ==> Agree(OutputWalk(d), n, s, shape.fields.value, false))
    decreases Room(d.classes, path), 1
  {
    if Count(path, d.cls(n)) < MAX_APPEARANCES {
      OutputsAgree(d, n, path);
    }
  }

  // --- a shaped output loses presence at every depth and nothing else

  lemma {:induction false} ShapedOutputAgrees(w: Walk, n: Node, s: Schema, b: Block)
    requires Agree(w, n, s, b, false)
    ensures Agree(w, n, s, NoneAlwaysPresent(b), true)
    decreases s, 1
  {
    ShapedFieldsAgree(w, w.decl.fields(n), s.properties, b.entries);
  }

  lemma {:induction false} ShapedFieldsAgree(w: Walk, fs: seq<Named>, ps: seq<Property>, es: seq<Entry>)
    requires AgreeFields(w, fs, ps, es, false)
    ensures AgreeFields(w, fs, ps, NoneAlwaysPresentIn(es), true)
    decreases ps, 0, |fs|
  {
    if fs != [] {
      if Skipped(w, fs[0].field) {
        ShapedFieldsAgree(w, fs[1..], ps, es);
      } else if !Listed(w, fs[0].field) {
        ShapedFieldsAgree(w, fs[1..], ps[1..], es);
      } else {
        ShapedFieldsAgree(w, fs[1..], ps[1..], es[1..]);
        ShapedFieldAgrees(w, fs[0].field, ps[0].schema, es[0]);
        assert NoneAlwaysPresentIn(es)[1..] == NoneAlwaysPresentIn(es[1..]);
      }
    }
  }

  lemma {:induction false} ShapedFieldAgrees(w: Walk, f: Field, s: Schema, e: Entry)
    requires AgreeField(w, f, s, e.shape, false)
    ensures AgreeField(w, f, s, NoneAlwaysPresentIn([e])[0].shape, true)
    decreases s, 3
  {
    match f.kind
    case Nested(n) => if e.shape.fields.Some? { ShapedOutputAgrees(w, n, s, e.shape.fields.value); }
    case Many(row) => if !s.items.Open? { ShapedOutputAgrees(w, row, s.items, e.shape.items.block); }
    case ListOf(Some(child)) =>
      if child.kind.Nested? && !s.items.Open? {
        ShapedOutputAgrees(w, child.kind.serializer, s.items, e.shape.items.block);
      }
    case _ =>
  }

  // --- the input direction

  /** The input schema and the input walk's Parameters agree, for every declaration and every path. */
  lemma {:induction false} InputsAgree(d: Declaration, n: Node, path: seq<Class>)
    requires d.Valid() && PathOk(d.classes, path) && Count(path, d.cls(n)) < MAX_APPEARANCES
    ensures Agree(InputWalk(d), n, SerializerToSchema(InputWalk(d), n, None, path), InputParameters(d, n, path), false)
    decreases Room(d.classes, path), 0
  {
    RoomShrinks(d.classes, path, d.cls(n));
    InputFieldsAgree(d, d.fields(n), path + [d.cls(n)]);
  }

  lemma {:induction false} InputFieldsAgree(d: Declaration, fs: seq<Named>, path: seq<Class>)
    requires d.Valid() && PathOk(d.classes, path)
    ensures AgreeFields(InputWalk(d), fs, Properties(InputWalk(d), fs, None, path), InputFields(d, fs, path), false)
    decreases Room(d.classes, path), 3, |fs|
  {
    if fs != [] {
      InputFieldsAgree(d, fs[1..], path);
      if !fs[0].field.readOnly {
        InputFieldAgrees(d, fs[0].field, path);
        assert Properties(InputWalk(d), fs, None, path)[1..] == Properties(InputWalk(d), fs[1..], None, path);
        assert IsInput(fs[0].field) ==> InputFields(d, fs, path)[1..] == InputFields(d, fs[1..], path);
      }
    }
  }

  lemma {:induction false} InputFieldAgrees(d: Declaration, f: Field, path: seq<Class>)
    requires d.Valid() && PathOk(d.classes, path)
    ensures AgreeField(InputWalk(d), f, FieldToSchema(InputWalk(d), f, None, path), InputShape(d, f, path), false)
    decreases Room(d.classes, path), 2, f
  {
    match f.kind
    case Nested(n) => if Count(path, d.cls(n)) < MAX_APPEARANCES { InputsAgree(d, n, path); }
    case Many(row) => InputRowsAgree(d, row, path);
    case ListOf(Some(child)) =>
      if child.kind.Nested? {
        InputRowsAgree(d, child.kind.serializer, path);
      } else if IsLeaf(child.kind) {
        InputLeavesAgree(d, f, child, path);
      }
    case ListOf(None) =>
    case _ => InputLeafAgrees(d, f, path);
  }

  lemma InputLeafAgrees(d: Declaration, f: Field, path: seq<Class>)
    requires d.Valid() && PathOk(d.classes, path) && IsLeaf(f.kind)
    ensures AgreeLeaf(InputWalk(d), f.kind, FieldToSchema(InputWalk(d), f, None, path), InputShape(d, f, path))
  {
  }

  lemma InputLeavesAgree(d: Declaration, f: Field, child: Field, path: seq<Class>)
    requires d.Valid() && PathOk(d.classes, path) && f.kind == ListOf(Some(child)) && IsLeaf(child.kind)
    ensures AgreeField(InputWalk(d), f, FieldToSchema(InputWalk(d), f, None, path), InputShape(d, f, path), false)
  {
    InputLeafAgrees(d, child, path);
  }

  lemma {:induction false} InputRowsAgree(d: Declaration, row: Node, path: seq<Class>)
    requires d.Valid() && PathOk(d.classes, path)
    ensures AgreeRows(InputWalk(d), row, SerializerToSchema(InputWalk(d), row, None, path), InputRows(d, row, path),
                      false)
    decreases Room(d.classes, path), 1
  {
    if Count(path, d.cls(row)) < MAX_APPEARANCES {
      InputsAgree(d, row, path);
    }
  }
}
