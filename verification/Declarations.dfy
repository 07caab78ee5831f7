/**
  What a DRF serializer declares, as the three walks read it.

  A serializer builds its fields lazily, so a declaration may be infinite: it is
  a function from a serializer instance (a `Node`) to that instance's fields. A
  serializer nesting itself points a node at another node of the same class, and
  one bounding itself with a countdown runs out of nodes.
*/
module Declarations {
  import opened Prelude

  type Node = nat
  type Class = nat

  datatype Default = NoDefault | Computed | Literal(value: int, jsonNative: bool)

  /** What a field is. `Scalar` stands for every field with no field inside it that
      the three type tables share, under the JSON type they give it. */
  datatype Kind =
    | Scalar(jsonType: Option<string>)
    | Dict
    | File
    | Duration
    | Hidden
    | Choice(valueType: Option<string>)
    | MultipleChoice(valueType: Option<string>)
    | ManyRelated
    | ListOf(child: Option<Field>)
    | Many(row: Node)
    | Nested(serializer: Node)

  datatype Field = Field(kind: Kind, readOnly: bool, writeOnly: bool, required: bool,
                         default: Default, allowNull: bool)

  datatype Named = Named(name: string, field: Field)

  /** `classes` bounds the serializer classes there are; a class is its number. */
  datatype Declaration = Declaration(classes: nat, cls: Node -> Class, fields: Node -> seq<Named>)
  {
    ghost predicate Valid() {
      forall n: Node :: cls(n) < classes
    }
  }

  /** How many times one class may be on a walk's path. */
  const MAX_APPEARANCES := 4

  function Count(path: seq<Class>, c: Class): (k: nat)
  {
    if path == [] then 0 else (if path[0] == c then 1 else 0) + Count(path[1..], c)
  }

  /** The walks' path invariant: known classes, none of them more than four times. */
  ghost predicate PathOk(classes: nat, path: seq<Class>) {
    && (forall i :: 0 <= i < |path| ==> path[i] < classes)
    && (forall c: Class :: Count(path, c) <= MAX_APPEARANCES)
  }

  lemma {:induction false} CountAppend(p: seq<Class>, q: seq<Class>, c: Class)
    ensures Count(p + q, c) == Count(p, c) + Count(q, c)
  {
    if p == [] {
      assert p + q == q;
    } else {
      assert (p + q)[1..] == p[1..] + q;
      CountAppend(p[1..], q, c);
    }
  }

  /** One more appearance of a class that has room for it keeps the invariant. */
  lemma PathGrows(classes: nat, path: seq<Class>, c: Class)
    requires PathOk(classes, path) && c < classes && Count(path, c) < MAX_APPEARANCES
    ensures PathOk(classes, path + [c])
  {
    forall k: Class ensures Count(path + [c], k) <= MAX_APPEARANCES {
      CountAppend(path, [c], k);
    }
  }

  function Without(path: seq<Class>, c: Class): (r: seq<Class>)
  {
    if path == [] then []
    else (if path[0] == c then [] else [path[0]]) + Without(path[1..], c)
  }

  lemma {:induction false} WithoutCounts(path: seq<Class>, c: Class)
    ensures |Without(path, c)| == |path| - Count(path, c)
    ensures forall k: Class :: Count(Without(path, c), k) == if k == c then 0 else Count(path, k)
    ensures forall k :: k in Without(path, c) ==> k in path && k != c
  {
    if path != [] {
      WithoutCounts(path[1..], c);
      forall k: Class
        ensures Count(Without(path, c), k) == if k == c then 0 else Count(path, k)
      {
        CountAppend(if path[0] == c then [] else [path[0]], Without(path[1..], c), k);
      }
    }
  }

  /** The pigeonhole: a path obeying the invariant is at most four times the classes long. */
  lemma {:induction false} PathBound(classes: nat, path: seq<Class>)
    requires PathOk(classes, path)
    ensures |path| <= 4 * classes
  {
    if path != [] {
      assert path[0] < classes;
      var c := classes - 1;
      WithoutCounts(path, c);
      var rest := Without(path, c);
      forall i | 0 <= i < |rest| ensures rest[i] < c {
        assert rest[i] in path;
      }
      PathBound(c, rest);
    }
  }

  /** What is left of the pigeonhole bound: the first part of every walk's measure. */
  ghost function Room(classes: nat, path: seq<Class>): nat
    requires PathOk(classes, path)
  {
    PathBound(classes, path);
    MAX_APPEARANCES * classes - |path|
  }

  /** Entering a serializer spends some of it. */
  lemma RoomShrinks(classes: nat, path: seq<Class>, c: Class)
    requires PathOk(classes, path) && c < classes && Count(path, c) < MAX_APPEARANCES
    ensures PathOk(classes, path + [c]) && Room(classes, path + [c]) < Room(classes, path)
  {
    PathGrows(classes, path, c);
  }
}
