/**
  One input serializer built per call: the one a call describes its fields with is
  the one that validates, wherever it is bound exactly as the Validator binds it.
*/
module Description {
  import opened Prelude

  /** An object, by identity. */
  type Object = nat
  type Context = map<string, Object>

  /** A serializer class, or a dataclass read through one. */
  type Declaration = nat

  class Serializer {
    /** `None` for the plain `Serializer()` that stands in until a row is found. */
    const declaration: Option<Declaration>
    const many: bool
    /** `initial_data`, absent on a serializer built with no body. */
    const data: Option<Object>
    const instance: Option<Object>
    const partial': bool
    const context: Context
    /** Whether it has validated once: `_errors` is set. */
    var validated: bool

    constructor (declaration: Option<Declaration>, many: bool, data: Option<Object>, instance: Option<Object>,
                 partial': bool, context: Context)
      ensures this.declaration == declaration && this.many == many && this.data == data
      ensures this.instance == instance && this.partial' == partial' && this.context == context && !validated
    {
      this.declaration, this.many, this.data, this.instance := declaration, many, data, instance;
      this.partial', this.context, validated := partial', context, false;
    }
  }

  /** The body, row and flags a serializer is bound with; a list serializer takes no row. */
  datatype Binding = Binding(declaration: Declaration, data: Object, instance: Option<Object>, partial': bool,
                             many: bool)
  {
    function Row(): Option<Object> {
      if many then None else instance
    }
  }

  /** What binding afresh would build: the same body, row, flags and context objects, and not validated. */
  ghost predicate IsFreshBind(s: Serializer, b: Binding, context: Context)
    reads s
  {
    && s.declaration == Some(b.declaration) && s.many == b.many && s.data == Some(b.data)
    && s.instance == (if b.many then None else b.instance) && s.partial' == b.partial' && s.context == context
    && !s.validated
  }

  method BindSerializer(b: Binding, context: Context) returns (s: Serializer)
    ensures fresh(s) && IsFreshBind(s, b, context)
  {
    s := new Serializer(Some(b.declaration), b.many, Some(b.data), b.Row(), b.partial', context);
  }

  /** How building a serializer for a description went: built under a context, or only under one holding a
      whole-pool callable's answer, or not at all. */
  datatype Attempt = Built(context: Context) | BuiltWithWholePool(context: Context) | Unreadable

  class EdgeCall {
    var describeBinding: Option<Binding>
    var described: map<Declaration, Serializer>
    var rowPending: bool

    /** A description is of its own declaration, or stands in for it with no body. */
    ghost predicate Valid()
      reads this
    {
      forall d :: d in described ==>
        || described[d].declaration == Some(d)
        || (described[d].declaration == None && described[d].data == None)
    }

    constructor ()
      ensures Valid() && describeBinding == None && described == map[] && !rowPending
    {
      describeBinding, described, rowPending := None, map[], false;
    }

    /** From here on the declaration is described as `b` binds it. */
    method DescribeWith(b: Binding)
      requires Valid()
      modifies `describeBinding, `described
      ensures Valid() && describeBinding == Some(b) && described == old(described) - {b.declaration}
    {
      describeBinding := Some(b);
      described := described - {b.declaration};
    }

    /** The serializer the call describes `declaration` with, built once. `None` where it cannot be built,
        which leaves the call's description as it was. */
    method DescribeSerializer(declaration: Declaration, attempt: Attempt) returns (s: Serializer?)
      requires Valid()
      modifies `described
      ensures Valid()
      ensures declaration in old(described) ==> s == old(described)[declaration] && described == old(described)
      ensures declaration !in old(described) ==>
        if attempt.Unreadable? && !rowPending then s == null && described == old(described)
        else
          && s != null && fresh(s) && described == old(described)[declaration := s]
          && (attempt.Unreadable? ==> s.declaration == None && s.data == None)
          && (!attempt.Unreadable? ==>
                if describeBinding.Some? && describeBinding.value.declaration == declaration
                then IsFreshBind(s, describeBinding.value, attempt.context)
                else s.declaration == Some(declaration) && s.data == None && !s.validated)
    {
      if declaration in described {
        return described[declaration];
      }
      if attempt.Unreadable? {
        if !rowPending {
          return null;
        }
        s := new Serializer(None, false, None, None, false, map[]);
      } else if describeBinding.Some? && describeBinding.value.declaration == declaration {
        s := BindSerializer(describeBinding.value, attempt.context);
      } else {
        s := new Serializer(Some(declaration), false, None, None, false, attempt.context);
      }
      described := described[declaration := s];
    }

    /** The call's description, where it is bound exactly as the Validator binds, and null where it is not:
        what is returned is what binding afresh would build, so it is never the stand-in, and never one
        that has validated. */
    method BoundDescription(b: Binding, context: Context) returns (s: Serializer?)
      requires Valid()
      ensures s != null ==> b.declaration in described && s == described[b.declaration] && IsFreshBind(s, b, context)
      ensures s == null ==> b.declaration !in described || !IsFreshBind(described[b.declaration], b, context)
    {
      if b.declaration !in described {
        return null;
      }
      var held := described[b.declaration];
      if held.validated {
        return null;
      }
      var boundAs := held.many == b.many && held.data == Some(b.data) && held.instance == b.Row()
          && held.partial' == b.partial';
      s := if boundAs && held.context == context then held else null;
    }

    /** The Validator's serializer for a call: the description where it is that, else one bound afresh. It is
        validated once, here, so the same binding asked again is bound again. */
    method Validate(b: Binding, context: Context) returns (s: Serializer)
      requires Valid()
      modifies described.Values
      ensures Valid() && described == old(described)
      ensures s.validated && s.declaration == Some(b.declaration) && s.many == b.many && s.data == Some(b.data)
      ensures s.instance == (if b.many then None else b.instance) && s.partial' == b.partial' && s.context == context
      ensures fresh(s) || (s in described.Values && old(!s.validated))
      ensures fresh(s) <==> b.declaration !in described || !old(IsFreshBind(described[b.declaration], b, context))
      ensures forall d :: d in described && described[d] != s ==> described[d].validated == old(described[d].validated)
    {
      var held := BoundDescription(b, context);
      if held != null {
        s := held;
      } else {
        s := BindSerializer(b, context);
      }
      s.validated := true;
    }
  }

  /** Over one call, a serializer validates at most once: the second of two bindings alike is another. */
  method ValidatesOnce(call: EdgeCall, b: Binding, context: Context) returns (first: Serializer, second: Serializer)
    requires call.Valid()
    modifies call.described.Values
    ensures first != second && fresh(second)
  {
    first := call.Validate(b, context);
    second := call.Validate(b, context);
  }

  // --- the baseline context

  class Dict {
    var entries: Context

    constructor (entries: Context)
      ensures this.entries == entries
    {
      this.entries := entries;
    }
  }

  class BaseContext {
    var held: Option<(Object, Object, Dict)>
    /** How often the view was asked, and what it last answered. */
    var asked: nat
    ghost var answered: Context

    ghost predicate Valid()
      reads this, Owned()
    {
      held.Some? ==> held.value.2.entries == answered
    }

    ghost function Owned(): set<object>
      reads this
    {
      if held.Some? then {held.value.2} else {}
    }

    constructor ()
      ensures Valid() && held == None && asked == 0 && Owned() == {}
    {
      held, asked, answered := None, 0, map[];
    }

    /** The baseline for `request` and `view`, a copy of its own each time; `answer` is what the view gives
        where it is asked. */
    method CallBaseContext(request: Object, view: Object, answer: Context) returns (context: Dict)
      requires Valid()
      modifies this
      ensures Valid() && fresh(context) && context !in Owned() && fresh(Owned() - old(Owned()))
      ensures held.Some? && held.value.0 == request && held.value.1 == view
      ensures var hit := old(held.Some? && held.value.0 == request && held.value.1 == view);
              if hit then context.entries == old(answered) && asked == old(asked) && held == old(held)
                  && answered == old(answered)
              else context.entries == answer && asked == old(asked) + 1 && answered == answer
    {
      if held.Some? && held.value.0 == request && held.value.1 == view {
        context := new Dict(held.value.2.entries);
        return;
      }
      var own := new Dict(answer);
      asked := asked + 1;
      answered := answer;
      held := Some((request, view, own));
      context := new Dict(own.entries);
    }
  }

  /** What one serializer writes to its context, the next never sees. */
  method CopiesAreIndependent(base: BaseContext, request: Object, view: Object, answer: Context, written: Context)
    returns (first: Dict, second: Dict)
    requires base.Valid()
    modifies base
    ensures first != second && first.entries == written
    ensures second.entries == if old(base.held.Some? && base.held.value.0 == request && base.held.value.1 == view)
                              then old(base.answered) else answer
    ensures base.asked <= old(base.asked) + 1
  {
    first := base.CallBaseContext(request, view, answer);
    first.entries := written;
    second := base.CallBaseContext(request, view, map[]);
  }
}
