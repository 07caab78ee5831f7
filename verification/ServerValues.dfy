/**
  The Validator of a single call: the server's value for each field it put one into,
  validated on its own, handed to the parameters that claim it, laid back over the
  data, and kept from being the client's under every name the server owns.
*/
module ServerValues {
  import opened Prelude

  /** A validated value: a scalar, a mapping, or a dataclass instance, whose attributes are no keys. */
  datatype Tree = Leaf(text: string) | Dict(items: map<string, Tree>) | Record(attributes: map<string, Tree>)

  /** What a field validates: nothing (`empty`), or a value. */
  datatype Input = Empty | Put(value: Tree)

  /** A field's `run_validation`, or its `validate_<field>`: a value, a refusal, or a field left out. */
  datatype Outcome = Accepted(value: Tree) | Refused(detail: string) | Skipped

  /** A serializer's field: its `source` as keys (none for `source="*"`), what it reads from a form holding only
      a value, its validation, and the serializer's `validate_<field>`. */
  datatype Field = Field(name: string, readOnly: bool, hidden: bool, attrs: seq<string>,
                         readForm: Tree -> Option<Tree>, run: Input -> Outcome, validateField: Option<Tree -> Outcome>)

  /** The value of one field the server put one into. */
  datatype Held = Held(name: string, attrs: seq<string>, value: Tree)

  // --- the field loop

  /** A `HiddenField` takes no input; a form's value is read as the field reads a form of it. */
  function Primitive(field: Field, value: Tree, form: bool): Input {
    if field.hidden then Empty
    else if form && !value.Dict? && (field.readForm(value).Some? || value == Leaf("")) then
      match field.readForm(value) case None => Empty case Some(read) => Put(read)
    else Put(value)
  }

  function Judged(field: Field, value: Tree, form: bool): Outcome {
    var run := field.run(Primitive(field, value, form));
    if run.Accepted? && field.validateField.Some? then field.validateField.value(run.value) else run
  }

  /** A value is judged by the field, given what it takes of the value, and what that accepts by the serializer's
      `validate_<field>`, where it has one. */
  lemma JudgedByTheFieldThenItsMethod(field: Field, value: Tree, form: bool)
    ensures var run, judged := field.run(Primitive(field, value, form)), Judged(field, value, form);
            && (!run.Accepted? || field.validateField.None? ==> judged == run)
            && (run.Accepted? && field.validateField.Some? ==> judged == field.validateField.value(run.value))
  {
  }

  /** A hidden field takes nothing; another takes the value as it was put, but on a form what the field reads of one
      value there, an empty one being nothing where it reads nothing. */
  lemma TakenAsPut(field: Field, value: Tree, form: bool)
    ensures field.hidden ==> Primitive(field, value, form) == Empty
    ensures !field.hidden && (!form || value.Dict?) ==> Primitive(field, value, form) == Put(value)
    ensures !field.hidden && form && !value.Dict? ==>
              match field.readForm(value)
              case Some(read) => Primitive(field, value, form) == Put(read)
              case None => Primitive(field, value, form) == if value == Leaf("") then Empty else Put(value)
  {
  }

  predicate Visited(field: Field, put: map<string, Tree>) { field.name in put && !field.readOnly }

  function HeldOf(fields: seq<Field>, put: map<string, Tree>, form: bool): seq<Held> {
    if fields == [] then []
    else
      var rest := HeldOf(fields[1..], put, form);
      var field := fields[0];
      if Visited(field, put) && Judged(field, put[field.name], form).Accepted?
      then [Held(field.name, field.attrs, Judged(field, put[field.name], form).value)] + rest
      else rest
  }

  function ErrorsOf(fields: seq<Field>, put: map<string, Tree>, form: bool): seq<(string, string)> {
    if fields == [] then []
    else
      var rest := ErrorsOf(fields[1..], put, form);
      var field := fields[0];
      if Visited(field, put) && Judged(field, put[field.name], form).Refused?
      then [(field.name, Judged(field, put[field.name], form).detail)] + rest
      else rest
  }

  datatype Answer<T> = InvalidArguments(errors: seq<(string, string)>) | Answered(value: T)

  function ServerValuesOf(fields: seq<Field>, put: map<string, Tree>, form: bool): Answer<seq<Held>> {
    if ErrorsOf(fields, put, form) != [] then InvalidArguments(ErrorsOf(fields, put, form))
    else Answered(HeldOf(fields, put, form))
  }

  lemma HeldAppends(fields: seq<Field>, field: Field, put: map<string, Tree>, form: bool)
    ensures HeldOf(fields + [field], put, form) == HeldOf(fields, put, form) + HeldOf([field], put, form)
    ensures ErrorsOf(fields + [field], put, form) == ErrorsOf(fields, put, form) + ErrorsOf([field], put, form)
  {
    if fields == [] {
      assert fields + [field] == [field];
    } else {
      assert (fields + [field])[1..] == fields[1..] + [field];
      HeldAppends(fields[1..], field, put, form);
    }
  }

  /** As it runs, over the serializer's fields in order. */
  method CollectServerValues(fields: seq<Field>, put: map<string, Tree>, form: bool) returns (answer: Answer<seq<Held>>)
    ensures answer == ServerValuesOf(fields, put, form)
  {
    var held: seq<Held>, errors: seq<(string, string)> := [], [];
    for i := 0 to |fields|
      invariant held == HeldOf(fields[..i], put, form) && errors == ErrorsOf(fields[..i], put, form)
    {
      var field := fields[i];
      assert fields[..i + 1] == fields[..i] + [field];
      HeldAppends(fields[..i], field, put, form);
      if field.name in put && !field.readOnly {
        match Judged(field, put[field.name], form)
        case Accepted(value) => held := held + [Held(field.name, field.attrs, value)];
        case Refused(detail) => errors := errors + [(field.name, detail)];
        case Skipped =>
      }
    }
    assert fields[..|fields|] == fields;
    answer := if errors != [] then InvalidArguments(errors) else Answered(held);
  }

  ghost predicate NamesApart(fields: seq<Field>) {
    forall i, j :: 0 <= i < j < |fields| ==> fields[i].name != fields[j].name
  }

  /** What is held is exactly what a visited field accepted of what was put into it. */
  lemma {:induction false} HeldExactly(fields: seq<Field>, put: map<string, Tree>, form: bool, h: Held)
    ensures h in HeldOf(fields, put, form) <==>
            exists f :: f in fields && f.name in put && !f.readOnly
                && Judged(f, put[f.name], form) == Accepted(h.value) && f.name == h.name && f.attrs == h.attrs
  {
    if fields != [] {
      HeldExactly(fields[1..], put, form, h);
      var first := fields[0];
      assert fields == [first] + fields[1..];
      if Visited(first, put) && Judged(first, put[first.name], form) == Accepted(h.value) && first.name == h.name
          && first.attrs == h.attrs {
        assert first in fields;
      } else if h in HeldOf(fields, put, form) {
        assert h in HeldOf(fields[1..], put, form);
      }
    }
  }

  /** Every refusal is answered together, each under its field, and nothing is answered without one. */
  lemma {:induction false} RefusedTogether(fields: seq<Field>, put: map<string, Tree>, form: bool, name: string,
                                           detail: string)
    ensures (name, detail) in ErrorsOf(fields, put, form) <==>
            exists f :: f in fields && f.name in put && !f.readOnly
                && Judged(f, put[f.name], form) == Refused(detail) && f.name == name
  {
    if fields != [] {
      RefusedTogether(fields[1..], put, form, name, detail);
      var first := fields[0];
      assert fields == [first] + fields[1..];
      if Visited(first, put) && Judged(first, put[first.name], form) == Refused(detail) && first.name == name {
        assert first in fields;
      } else if (name, detail) in ErrorsOf(fields, put, form) {
        assert (name, detail) in ErrorsOf(fields[1..], put, form);
      }
    }
  }

  lemma {:induction false} HeldApart(fields: seq<Field>, put: map<string, Tree>, form: bool)
    requires NamesApart(fields)
    ensures forall i, j :: 0 <= i < j < |HeldOf(fields, put, form)| ==>
      HeldOf(fields, put, form)[i].name != HeldOf(fields, put, form)[j].name
  {
    if fields != [] {
      HeldApart(fields[1..], put, form);
      forall h | h in HeldOf(fields[1..], put, form) ensures h.name != fields[0].name {
        HeldExactly(fields[1..], put, form, h);
      }
    }
  }

  // --- the parameters a field's value is handed under

  /** Its `source` where that is one key, else its own name. */
  function KeyOf(h: Held): string { if |h.attrs| == 1 then h.attrs[0] else h.name }

  function AuthorKeyOf(h: Held, authored: map<string, string>): string {
    if h.name in authored then authored[h.name] else KeyOf(h)
  }

  predicate ClaimsParameter(h: Held, authored: map<string, string>, parameter: string) {
    parameter == KeyOf(h) || parameter == AuthorKeyOf(h, authored)
  }

  /** Each parameter a field claims is handed the value of the last that does, and no other is handed one. */
  ghost predicate IsHanded(handed: map<string, Tree>, held: seq<Held>, authored: map<string, string>) {
    forall parameter :: LastClaim(handed, held, authored, parameter)
  }

  ghost predicate LastClaim(handed: map<string, Tree>, held: seq<Held>, authored: map<string, string>,
                            parameter: string) {
    if parameter in handed then
      exists i :: 0 <= i < |held| && ClaimsParameter(held[i], authored, parameter) && handed[parameter] == held[i].value
        && forall j :: i < j < |held| ==> !ClaimsParameter(held[j], authored, parameter)
    else forall i :: 0 <= i < |held| ==> !ClaimsParameter(held[i], authored, parameter)
  }

  lemma HandedAppends(handed: map<string, Tree>, held: seq<Held>, h: Held, authored: map<string, string>)
    requires IsHanded(handed, held, authored)
    ensures IsHanded(handed[KeyOf(h) := h.value][AuthorKeyOf(h, authored) := h.value], held + [h], authored)
  {
    var next := handed[KeyOf(h) := h.value][AuthorKeyOf(h, authored) := h.value];
    forall parameter ensures LastClaim(next, held + [h], authored, parameter) {
      assert LastClaim(handed, held, authored, parameter);
      if ClaimsParameter(h, authored, parameter) {
        assert (held + [h])[|held|] == h;
      } else if parameter in handed {
        var i :| 0 <= i < |held| && ClaimsParameter(held[i], authored, parameter) && handed[parameter] == held[i].value
          && forall j :: i < j < |held| ==> !ClaimsParameter(held[j], authored, parameter);
        assert (held + [h])[i] == held[i];
      }
    }
  }

  function HandedOf(held: seq<Held>, authored: map<string, string>): map<string, Tree> {
    if held == [] then map[]
    else
      var h := held[|held| - 1];
      HandedOf(held[..|held| - 1], authored)[KeyOf(h) := h.value][AuthorKeyOf(h, authored) := h.value]
  }

  /** As it runs. */
  method HandOn(held: seq<Held>, authored: map<string, string>) returns (handed: map<string, Tree>)
    ensures handed == HandedOf(held, authored)
  {
    handed := map[];
    for i := 0 to |held|
      invariant handed == HandedOf(held[..i], authored)
    {
      assert held[..i + 1][..i] == held[..i];
      handed := handed[KeyOf(held[i]) := held[i].value];
      handed := handed[AuthorKeyOf(held[i], authored) := held[i].value];
    }
    assert held[..|held|] == held;
  }

  lemma {:induction false} HandedIsTheLastClaim(held: seq<Held>, authored: map<string, string>)
    ensures IsHanded(HandedOf(held, authored), held, authored)
  {
    if held != [] {
      var h, front := held[|held| - 1], held[..|held| - 1];
      HandedIsTheLastClaim(front, authored);
      HandedAppends(HandedOf(front, authored), front, h, authored);
      assert held == front + [h];
    }
  }

  // --- the data the values are laid back over

  /** What `data` holds at a path of keys, each a mapping's. */
  function At(data: Tree, path: seq<string>): Option<Tree> {
    if path == [] then Some(data)
    else if data.Dict? && path[0] in data.items then At(data.items[path[0]], path[1..])
    else None
  }

  /** `value` over the key at `path`, where mappings lead to it and the last holds it. */
  function LaidAt(data: Tree, path: seq<string>, value: Tree): Tree
    decreases path
  {
    if path == [] || !data.Dict? || path[0] !in data.items then data
    else Dict(data.items[path[0] := if |path| == 1 then value else LaidAt(data.items[path[0]], path[1..], value)])
  }

  function LaidBack(data: Tree, held: seq<Held>): Tree {
    if held == [] then data
    else LaidAt(LaidBack(data, held[..|held| - 1]), held[|held| - 1].attrs, held[|held| - 1].value)
  }

  method LayBack(data: Tree, held: seq<Held>) returns (laid: Tree)
    ensures laid == LaidBack(data, held)
  {
    laid := data;
    for i := 0 to |held|
      invariant laid == LaidBack(data, held[..i])
    {
      assert held[..i + 1][..i] == held[..i];
      laid := LaidAt(laid, held[i].attrs, held[i].value);
    }
    assert held[..|held|] == held;
  }

  predicate Comparable(p: seq<string>, q: seq<string>) { p <= q || q <= p }

  /** What one laying back changes: the value at its path, where there is one, and nothing off it. */
  lemma {:induction false} LaidAtAt(data: Tree, path: seq<string>, value: Tree, q: seq<string>)
    requires path != [] && !(path < q)
    ensures At(LaidAt(data, path, value), q).Some? <==> At(data, q).Some?
    ensures q == path && At(data, q).Some? ==> At(LaidAt(data, path, value), q) == Some(value)
    ensures !Comparable(path, q) ==> At(LaidAt(data, path, value), q) == At(data, q)
    ensures q < path ==> SameKeys(At(LaidAt(data, path, value), q), At(data, q))
    decreases path
  {
    if q != [] && data.Dict? && path[0] in data.items && q[0] == path[0] {
      if |path| == 1 {
        assert q == path;
      } else {
        LaidAtAt(data.items[path[0]], path[1..], value, q[1..]);
        PathsBeneath(path, q);
      }
    }
  }

  lemma PathsBeneath(p: seq<string>, q: seq<string>)
    requires p != [] && q != [] && p[0] == q[0]
    ensures (p <= q <==> p[1..] <= q[1..]) && (q <= p <==> q[1..] <= p[1..]) && (p == q <==> p[1..] == q[1..])
  {
    assert p == [p[0]] + p[1..] && q == [q[0]] + q[1..];
  }

  /** Two values that are mappings of the same keys, or no mapping and the same. */
  ghost predicate SameKeys(one: Option<Tree>, two: Option<Tree>) {
    if one.Some? && two.Some? && one.value.Dict? && two.value.Dict?
    then one.value.items.Keys == two.value.items.Keys
    else one == two
  }

  /** No field's `source` is, or leads to, another's. */
  ghost predicate PathsApart(held: seq<Held>) {
    forall i, j :: 0 <= i < j < |held| && held[i].attrs != [] && held[j].attrs != [] ==>
        !Comparable(held[i].attrs, held[j].attrs)
  }

  /** No parameter is claimed by two fields. */
  ghost predicate ParametersApart(held: seq<Held>, authored: map<string, string>) {
    forall i, j, parameter :: 0 <= i < j < |held| && ClaimsParameter(held[i], authored, parameter) ==>
        !ClaimsParameter(held[j], authored, parameter)
  }

  /** No held path leads above `q`. */
  ghost predicate NoneAbove(held: seq<Held>, q: seq<string>) {
    forall h :: h in held ==> h.attrs == [] || !(h.attrs < q)
  }

  /** What laying back leaves at `q`: whatever a held path of that very name holds, and otherwise what was there. */
  ghost predicate LaidAlike(held: seq<Held>, q: seq<string>, was: Option<Tree>, laid: Option<Tree>) {
    && (laid.Some? <==> was.Some?)
    && ((forall h :: h in held && h.attrs != [] ==> !Comparable(h.attrs, q)) ==> laid == was)
    && ((forall h :: h in held && h.attrs != [] ==> h.attrs != q) ==> SameKeys(laid, was))
    && (forall h :: h in held && h.attrs == q && q != [] && was.Some? ==> laid == Some(h.value))
  }

  /** Laying back adds no key and takes none, changes nothing off the fields' paths, and leaves each path that is
      still there holding its field's value. */
  lemma {:induction false} LaidBackExactly(data: Tree, held: seq<Held>, q: seq<string>)
    requires PathsApart(held) && NoneAbove(held, q)
    ensures LaidAlike(held, q, At(data, q), At(LaidBack(data, held), q))
  {
    if held != [] {
      var last, front := held[|held| - 1], held[..|held| - 1];
      assert held == front + [last];
      LaidBackExactly(data, front, q);
      if last.attrs != [] {
        LaidAtAt(LaidBack(data, front), last.attrs, last.value, q);
        LastApart(held, q);
      }
      LaidOneMore(front, last, q, At(data, q), At(LaidBack(data, front), q), At(LaidBack(data, held), q));
    }
  }

  lemma LastApart(held: seq<Held>, q: seq<string>)
    requires PathsApart(held) && held != [] && held[|held| - 1].attrs != []
    ensures forall h :: h in held[..|held| - 1] && h.attrs == q && q != [] ==> !Comparable(held[|held| - 1].attrs, q)
  {
    var last, front := held[|held| - 1], held[..|held| - 1];
    forall h | h in front && h.attrs == q && q != [] ensures !Comparable(last.attrs, q) {
      var i :| 0 <= i < |front| && front[i] == h;
      assert held[i] == h && !Comparable(held[i].attrs, held[|held| - 1].attrs);
    }
  }

  lemma LaidOneMore(front: seq<Held>, last: Held, q: seq<string>, was: Option<Tree>, before: Option<Tree>,
                    after: Option<Tree>)
    requires LaidAlike(front, q, was, before)
    requires last.attrs == [] ==> after == before
    requires last.attrs != [] ==>
      && (after.Some? <==> before.Some?)
      && (q == last.attrs && before.Some? ==> after == Some(last.value))
      && (!Comparable(last.attrs, q) ==> after == before)
      && (q != last.attrs && Comparable(last.attrs, q) ==> SameKeys(after, before))
    requires last.attrs != [] ==> forall h :: h in front && h.attrs == q && q != [] ==> !Comparable(last.attrs, q)
    ensures LaidAlike(front + [last], q, was, after)
  {
    var held := front + [last];
    assert last in held && forall h :: h in front ==> h in held;
    assert forall h :: h in held ==> h in front || h == last;
    if forall h :: h in held && h.attrs != [] ==> h.attrs != q {
      assert forall h :: h in front && h.attrs != [] ==> h.attrs != q;
    }
  }

  /** One value to a field: every parameter it claims is handed the value it validated, and where its `source` is
      still in the data that holds the same. */
  lemma OneValuePerField(data: Tree, held: seq<Held>, authored: map<string, string>, h: Held, parameter: string)
    requires PathsApart(held) && ParametersApart(held, authored) && h in held && ClaimsParameter(h, authored, parameter)
    ensures parameter in HandedOf(held, authored) && HandedOf(held, authored)[parameter] == h.value
    ensures h.attrs != [] && At(data, h.attrs).Some? ==>
      At(LaidBack(data, held), h.attrs) == Some(HandedOf(held, authored)[parameter])
  {
    OneHanded(held, authored, h, parameter);
    if h.attrs != [] {
      NoneAboveHeld(held, h);
      LaidBackExactly(data, held, h.attrs);
    }
  }

  lemma OneHanded(held: seq<Held>, authored: map<string, string>, h: Held, parameter: string)
    requires ParametersApart(held, authored) && h in held && ClaimsParameter(h, authored, parameter)
    ensures parameter in HandedOf(held, authored) && HandedOf(held, authored)[parameter] == h.value
  {
    HandedIsTheLastClaim(held, authored);
    assert LastClaim(HandedOf(held, authored), held, authored, parameter);
    var i :| 0 <= i < |held| && held[i] == h;
  }

  /** Where all that claim a parameter hold one value, it is handed that. */
  lemma HandedIsAllClaims(held: seq<Held>, authored: map<string, string>, parameter: string, value: Tree)
    requires exists h :: h in held && ClaimsParameter(h, authored, parameter)
    requires forall h :: h in held && ClaimsParameter(h, authored, parameter) ==> h.value == value
    ensures parameter in HandedOf(held, authored) && HandedOf(held, authored)[parameter] == value
  {
    HandedIsTheLastClaim(held, authored);
    assert LastClaim(HandedOf(held, authored), held, authored, parameter);
  }

  lemma NoneAboveHeld(held: seq<Held>, h: Held)
    requires PathsApart(held) && h in held && h.attrs != []
    ensures NoneAbove(held, h.attrs)
  {
    var i :| 0 <= i < |held| && held[i] == h;
    forall other | other in held && other.attrs != [] ensures !(other.attrs < h.attrs) {
      var j :| 0 <= j < |held| && held[j] == other;
      if i != j {
        assert !Comparable(held[if i < j then i else j].attrs, held[if i < j then j else i].attrs);
      }
    }
  }

  // --- the Validator

  /** A body as the serializer is bound to it: whether it is a form, and what it holds. */
  datatype Body = Body(form: bool, content: map<string, Tree>)

  /** `valid` is the `validated_data` of a body it accepts. */
  datatype Serializer = Serializer(fields: seq<Field>, valid: Body -> Option<Tree>)

  /** What the edge's call gives the Validator: the value put into each field, the key an author gave each under,
      the names a callable marks `NotClientInput`, those the typed provider fills, and the seeds'. */
  datatype Call = Call(put: map<string, Tree>, authored: map<string, string>, serverOwned: set<string>,
                       providerOwned: set<string>, seeded: set<string>)

  datatype Verdict = BodyRefused | ServerRefused(errors: seq<(string, string)>) | Validated(values: map<string, Tree>,
                                                                                            data: Tree)

  /** What a value spreads by name. */
  function Spread(data: Tree): map<string, Tree> {
    match data
    case Dict(items) => items
    case Record(attributes) => attributes
    case Leaf(_) => map[]
  }

  /** The key `validated_data` holds a field's value under, for a field's name. */
  function Sources(fields: seq<Field>, names: set<string>): set<string> {
    set f | f in FieldsNamed(fields, names) && f != [] :: f[0]
  }

  function FieldsNamed(fields: seq<Field>, names: set<string>): set<seq<string>> {
    set i | 0 <= i < |fields| && fields[i].name in names :: fields[i].attrs
  }

  function Owned(s: Serializer, call: Call): set<string> {
    var owned := call.serverOwned + call.providerOwned;
    owned + Sources(s.fields, owned)
  }

  function ValuesOf(s: Serializer, call: Call, data: Tree, handed: map<string, Tree>): map<string, Tree> {
    (Spread(data) + handed) - call.seeded - (Owned(s, call) - handed.Keys)
  }

  function Validate(s: Serializer, call: Call, body: Body): Verdict {
    if s.valid(body).None? then BodyRefused
    else
      match ServerValuesOf(s.fields, call.put, body.form)
      case InvalidArguments(errors) => ServerRefused(errors)
      case Answered(held) =>
        var data := LaidBack(s.valid(body).value, held);
        Validated(ValuesOf(s, call, data, HandedOf(held, call.authored)), data)
  }

  /** As it runs. */
  method ValidateCall(s: Serializer, call: Call, body: Body) returns (verdict: Verdict)
    ensures verdict == Validate(s, call, body)
  {
    var valid := s.valid(body);
    if valid.None? {
      return BodyRefused;
    }
    var answer := CollectServerValues(s.fields, call.put, body.form);
    if answer.InvalidArguments? {
      return ServerRefused(answer.errors);
    }
    var data := LayBack(valid.value, answer.value);
    var values := Spread(data);
    var handed := HandOn(answer.value, call.authored);
    values := values + handed;
    values := values - call.seeded;
    verdict := Validated(values - (Owned(s, call) - handed.Keys), data);
  }

  /** What the server hands the parameters of a call whose body is, or is no, form. */
  function Handed(s: Serializer, call: Call, form: bool): map<string, Tree> {
    match ServerValuesOf(s.fields, call.put, form)
    case InvalidArguments(_) => map[]
    case Answered(held) => HandedOf(held, call.authored)
  }

  /** A name the server owns: marked, one the typed provider fills, or the first key of the `source` of a field
      so named. */
  ghost predicate IsServers(s: Serializer, call: Call, name: string) {
    || name in call.serverOwned + call.providerOwned
    || exists f :: f in s.fields && f.name in call.serverOwned + call.providerOwned && f.attrs != []
        && f.attrs[0] == name
  }

  lemma OwnedExactly(s: Serializer, call: Call, name: string)
    ensures name in Owned(s, call) <==> IsServers(s, call, name)
  {
    var owned := call.serverOwned + call.providerOwned;
    if f :| f in s.fields && f.name in owned && f.attrs != [] && f.attrs[0] == name {
      assert f.attrs in FieldsNamed(s.fields, owned);
    }
    if name in Sources(s.fields, owned) {
      var attrs :| attrs in FieldsNamed(s.fields, owned) && attrs != [] && attrs[0] == name;
      var i :| 0 <= i < |s.fields| && s.fields[i].name in owned && s.fields[i].attrs == attrs;
      assert s.fields[i] in s.fields;
    }
  }

  /** Ownership. Whatever two bodies of one kind hold, once the serializer accepts both, every name the server
      owns - marked, the provider's, or the `source` of a field so named - is a value of the one call exactly
      where it is of the other, and holds exactly what the server handed it. */
  lemma OwnedNamesAreTheServers(s: Serializer, call: Call, body: Body, other: Body, name: string)
    requires body.form == other.form && s.valid(body).Some? && s.valid(other).Some? && IsServers(s, call, name)
    ensures Validate(s, call, body).Validated? <==> Validate(s, call, other).Validated?
    ensures Validate(s, call, body).Validated? ==>
              var values, others := Validate(s, call, body).values, Validate(s, call, other).values;
              && (name in values <==> name in others)
              && (name in values ==> values[name] == others[name])
              && (name in values <==> name in Handed(s, call, body.form) && name !in call.seeded)
              && (name in values ==> values[name] == Handed(s, call, body.form)[name])
  {
    OwnedExactly(s, call, name);
  }

  /** What validated data holds under a name: a mapping's value, or a dataclass instance's attribute. */
  function HeldUnder(data: Tree, name: string): Option<Tree> {
    if data.Dict? && name in data.items then Some(data.items[name])
    else if data.Record? && name in data.attributes then Some(data.attributes[name])
    else None
  }

  /** Every other name is the server's where it handed one, else the serializer's. */
  lemma OtherNamesAreTheSerializers(s: Serializer, call: Call, body: Body, name: string)
    requires Validate(s, call, body).Validated? && !IsServers(s, call, name)
    ensures var verdict, handed := Validate(s, call, body), Handed(s, call, body.form);
      && (name in verdict.values <==>
            name !in call.seeded && (name in handed || HeldUnder(verdict.data, name).Some?))
      && (name in verdict.values ==>
            verdict.values[name] == if name in handed then handed[name] else HeldUnder(verdict.data, name).value)
  {
    OwnedExactly(s, call, name);
  }

  /** A value put into a field whose `source` is one key of its own is the parameter's and the data's alike, or
      the call is refused. */
  lemma ServersValueIsTheCalls(s: Serializer, call: Call, body: Body, f: Field)
    requires Validate(s, call, body).Validated? && f in s.fields && Visited(f, call.put)
    requires |f.attrs| == 1 && f.attrs[0] !in call.seeded && NamesApart(s.fields)
    requires PathsApart(HeldOf(s.fields, call.put, body.form))
             && ParametersApart(HeldOf(s.fields, call.put, body.form), call.authored)
    ensures var judged, verdict := Judged(f, call.put[f.name], body.form), Validate(s, call, body);
      && !judged.Refused?
      && (judged.Accepted? ==>
            && f.attrs[0] in verdict.values && verdict.values[f.attrs[0]] == judged.value
            && (At(verdict.data, f.attrs).Some? ==> At(verdict.data, f.attrs).value == judged.value))
  {
    var held := HeldOf(s.fields, call.put, body.form);
    match Judged(f, call.put[f.name], body.form)
    case Refused(detail) =>
      RefusedTogether(s.fields, call.put, body.form, f.name, detail);
    case Accepted(value) =>
      var h := Held(f.name, f.attrs, value);
      HeldExactly(s.fields, call.put, body.form, h);
      OneValuePerField(s.valid(body).value, held, call.authored, h, f.attrs[0]);
      NoneAboveHeld(held, h);
      LaidBackExactly(s.valid(body).value, held, f.attrs);
    case Skipped =>
  }
}
