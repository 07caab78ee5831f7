/**
  The two other walks over a declaration: the presenter's, which reads a
  serializer as the kernel's Output, and the input walk, which reads it as
  Parameters. An Output and a Parameters are one shape, a block of named
  entries; `always` is an output field's `always_present` and a parameter's
  `required`.
*/
module FieldWalks {
  import opened Prelude
  import opened Declarations
  import SchemaWalk

  datatype Block = Block(entries: seq<Entry>)

  datatype Entry = Entry(name: string, always: bool, shape: Shape)

  datatype Shape = Shape(jsonType: Option<string>, fields: Option<Block>, items: Items)

  datatype Items = NoItems | TypeName(jsonType: string) | Rows(block: Block)

  const ARRAY := Some("array")
  const OBJECT := Some("object")

  predicate IsInput(f: Field) {
    !f.readOnly && f.kind != Hidden
  }

  function TypeItems(jsonType: Option<string>): Items {
    if jsonType.Some? then TypeName(jsonType.value) else NoItems
  }

  // --- the presenter's walk

  function OutputOf(d: Declaration, n: Node, path: seq<Class>): Block
    requires d.Valid() && PathOk(d.classes, path) && Count(path, d.cls(n)) < MAX_APPEARANCES
    decreases Room(d.classes, path), 0
  {
    RoomShrinks(d.classes, path, d.cls(n));
    Block(OutputFields(d, d.fields(n), path + [d.cls(n)]))
  }

  function OutputFields(d: Declaration, fs: seq<Named>, path: seq<Class>): (es: seq<Entry>)
    requires d.Valid() && PathOk(d.classes, path)
    decreases Room(d.classes, path), 3, |fs|
  {
    if fs == [] then []
    else
      var rest := OutputFields(d, fs[1..], path);
      if fs[0].field.writeOnly then rest
      else [Entry(fs[0].name, SchemaWalk.AlwaysRendered(fs[0].field), OutputShape(d, fs[0].field, path))] + rest
  }

  /** A nested serializer's shape, with nothing inside it past the allowance. */
  function SerializerShape(d: Declaration, n: Node, path: seq<Class>): Shape
    requires d.Valid() && PathOk(d.classes, path)
    decreases Room(d.classes, path), 1
  {
    if Count(path, d.cls(n)) >= MAX_APPEARANCES then Shape(OBJECT, None, NoItems)
    else Shape(OBJECT, Some(OutputOf(d, n, path)), NoItems)
  }

  function OutputShape(d: Declaration, f: Field, path: seq<Class>): Shape
    requires d.Valid() && PathOk(d.classes, path)
    decreases Room(d.classes, path), 2, f
  {
    match f.kind
    case ListOf(None) => Shape(ARRAY, None, NoItems)
    case ListOf(Some(child)) => Shape(ARRAY, None, ElementItems(OutputShape(d, child, path)))
    case Many(row) => Shape(ARRAY, None, ElementItems(SerializerShape(d, row, path)))
    case ManyRelated => Shape(ARRAY, None, NoItems)
    case Nested(serializer) => SerializerShape(d, serializer, path)
    case MultipleChoice(valueType) => Shape(ARRAY, None, TypeItems(valueType))
    case Choice(valueType) => Shape(valueType, None, NoItems)
    case Scalar(jsonType) => Shape(jsonType, None, NoItems)
    case Dict => Shape(OBJECT, None, NoItems)
    case _ => Shape(None, None, NoItems)
  }

  /** A list's element is what its child nests, or else its child's type: a list's own items are lost. */
  function ElementItems(element: Shape): Items {
    if element.fields.Some? then Rows(element.fields.value) else TypeItems(element.jsonType)
  }

  // --- a shaped spec's output

  function NoneAlwaysPresent(b: Block): (r: Block)
    decreases b
  {
    Block(NoneAlwaysPresentIn(b.entries))
  }

  function NoneAlwaysPresentIn(es: seq<Entry>): (r: seq<Entry>)
    decreases es
  {
    if es == [] then []
    else
      var shape := es[0].shape;
      [Entry(es[0].name, false, Shape(
         shape.jsonType,
         if shape.fields.Some? then Some(NoneAlwaysPresent(shape.fields.value)) else None,
         if shape.items.Rows? then Rows(NoneAlwaysPresent(shape.items.block)) else shape.items))]
      + NoneAlwaysPresentIn(es[1..])
  }

  // --- the input walk

  function InputParameters(d: Declaration, n: Node, path: seq<Class>): Block
    requires d.Valid() && PathOk(d.classes, path) && Count(path, d.cls(n)) < MAX_APPEARANCES
    decreases Room(d.classes, path), 0
  {
    RoomShrinks(d.classes, path, d.cls(n));
    Block(InputFields(d, d.fields(n), path + [d.cls(n)]))
  }

  function InputFields(d: Declaration, fs: seq<Named>, path: seq<Class>): (es: seq<Entry>)
    requires d.Valid() && PathOk(d.classes, path)
    decreases Room(d.classes, path), 4, |fs|
  {
    if fs == [] then []
    else
      var rest := InputFields(d, fs[1..], path);
      if !IsInput(fs[0].field) then rest
      else [Entry(fs[0].name, fs[0].field.required, InputShape(d, fs[0].field, path))] + rest
  }

  function InputShape(d: Declaration, f: Field, path: seq<Class>): Shape
    requires d.Valid() && PathOk(d.classes, path)
    decreases Room(d.classes, path), 3
  {
    match f.kind
    case Many(row) => Shape(ARRAY, None, InputRows(d, row, path))
    case Nested(serializer) =>
      if Count(path, d.cls(serializer)) >= MAX_APPEARANCES then Shape(OBJECT, None, NoItems)
      else Shape(OBJECT, Some(InputParameters(d, serializer, path)), NoItems)
    case ListOf(None) => Shape(ARRAY, None, NoItems)
    case ListOf(Some(child)) => Shape(ARRAY, None, InputElement(d, child, path))
    case MultipleChoice(valueType) => Shape(ARRAY, None, TypeItems(valueType))
    case ManyRelated => Shape(ARRAY, None, NoItems)
    case _ => Shape(Some(InputType(f.kind)), None, NoItems)
  }

  /** The JSON type of a field with no field inside it; `any` where it has no single one. */
  function InputType(kind: Kind): string {
    match kind
    case Scalar(Some(jsonType)) => jsonType
    case Choice(Some(valueType)) => valueType
    case Dict => "object"
    case File => "file"
    case Duration => "string"
    case _ => "any"
  }

  function InputRows(d: Declaration, row: Node, path: seq<Class>): Items
    requires d.Valid() && PathOk(d.classes, path)
    decreases Room(d.classes, path), 1
  {
    if Count(path, d.cls(row)) >= MAX_APPEARANCES then TypeName("object")
    else Rows(InputParameters(d, row, path))
  }

  function InputElement(d: Declaration, child: Field, path: seq<Class>): Items
    requires d.Valid() && PathOk(d.classes, path)
    decreases Room(d.classes, path), 2
  {
    match child.kind
    case Nested(serializer) => InputRows(d, serializer, path)
    case ListOf(_) => TypeName("array")
    case Many(_) => TypeName("array")
    case _ => if InputType(child.kind) == "any" then NoItems else TypeName(InputType(child.kind))
  }
}
