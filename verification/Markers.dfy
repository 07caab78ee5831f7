/**
  Reading the schema markers off an annotation: which one layer they are read
  from, and that a marker anywhere else is refused rather than ignored.
*/
module Markers {
  import opened Prelude

  datatype Meta = InputRequired | NotClientInput | InputDescription(text: string) | Foreign(id: int)

  /** An annotation as `typing` builds one. A generic's argument is a list of annotations where it holds
      a `Callable`'s parameters, and one annotation otherwise, which is walked as a list of one. */
  datatype Annotation =
    | Plain(id: int)
    | NoneType
    | Annotated(underlying: Annotation, metadata: seq<Meta>)
    | Union(members: seq<Annotation>)
    | Generic(origin: int, args: seq<Argument>)

  datatype Argument = Argument(nested: seq<Annotation>)

  datatype Read = Markers(underlying: Annotation, required: bool, hidden: bool) | Contradiction | Misplaced

  predicate IsMarker(m: Meta) {
    !m.Foreign?
  }

  /** What `typing` guarantees of a union: members that are no unions, at least two of them, all
      different, so at most one is `None`. It holds at every union of the annotation. */
  ghost predicate WellFormed(a: Annotation)
    decreases a
  {
    match a
    case Plain(_) => true
    case NoneType => true
    case Annotated(underlying, _) => WellFormed(underlying)
    case Union(members) =>
      && |members| >= 2
      && (forall i, j :: 0 <= i < j < |members| ==> members[i] != members[j])
      && (forall m :: m in members ==> !m.Union? && WellFormed(m))
    case Generic(_, args) =>
      forall arg :: arg in args ==> forall x :: x in arg.nested ==> WellFormed(x)
  }

  // --- the markers there are

  /** Every marker of the annotation, at any depth. */
  function MarkersIn(a: Annotation): seq<Meta>
    decreases a
  {
    match a
    case Plain(_) => []
    case NoneType => []
    case Annotated(underlying, metadata) => MarkersOf(metadata) + MarkersIn(underlying)
    case Union(members) => MarkersInAll(members)
    case Generic(_, args) => MarkersInArgs(args)
  }

  function MarkersOf(metadata: seq<Meta>): (r: seq<Meta>)
    ensures forall m :: m in r <==> m in metadata && IsMarker(m)
  {
    if metadata == [] then []
    else (if IsMarker(metadata[0]) then [metadata[0]] else []) + MarkersOf(metadata[1..])
  }

  function MarkersInAll(xs: seq<Annotation>): seq<Meta>
    decreases xs
  {
    if xs == [] then [] else MarkersIn(xs[0]) + MarkersInAll(xs[1..])
  }

  function MarkersInArgs(args: seq<Argument>): seq<Meta>
    decreases args
  {
    if args == [] then []
    else MarkersInArg(args[0]) + MarkersInArgs(args[1..])
  }

  function MarkersInArg(arg: Argument): seq<Meta>
    decreases arg
  {
    MarkersInAll(arg.nested)
  }

  // --- the readers

  predicate CarriesAMarker(a: Annotation)
    decreases a
  {
    match a
    case Annotated(underlying, metadata) => AnyMarker(metadata) || CarriesAMarker(underlying)
    case Union(members) => AnyCarries(members)
    case Generic(_, args) => AnyArgumentCarries(args)
    case _ => false
  }

  predicate AnyMarker(metadata: seq<Meta>) {
    metadata != [] && (IsMarker(metadata[0]) || AnyMarker(metadata[1..]))
  }

  predicate AnyCarries(xs: seq<Annotation>)
    decreases xs
  {
    xs != [] && (CarriesAMarker(xs[0]) || AnyCarries(xs[1..]))
  }

  predicate AnyArgumentCarries(args: seq<Argument>)
    decreases args
  {
    args != [] && (ArgumentCarries(args[0]) || AnyArgumentCarries(args[1..]))
  }

  predicate ArgumentCarries(arg: Argument)
    decreases arg
  {
    AnyCarries(arg.nested)
  }

  /** `Union[...]`: unions among the members flattened, repeats dropped, a single member itself. */
  function UnionOf(members: seq<Annotation>): Annotation {
    var flat := Distinct(Flatten(members));
    if |flat| == 1 then flat[0] else Union(flat)
  }

  function Flatten(members: seq<Annotation>): seq<Annotation> {
    if members == [] then []
    else (if members[0].Union? then members[0].members else [members[0]]) + Flatten(members[1..])
  }

  function Distinct(xs: seq<Annotation>): (r: seq<Annotation>)
    ensures forall x :: x in r <==> x in xs
  {
    if xs == [] then []
    else
      var init, last := Distinct(xs[..|xs| - 1]), xs[|xs| - 1];
      assert xs == xs[..|xs| - 1] + [last];
      if last in init then init else init + [last]
  }

  /** The members that are not `None`. */
  function Others(members: seq<Annotation>): (r: seq<Annotation>)
    ensures forall x :: x in r <==> x in members && x != NoneType
  {
    if members == [] then []
    else (if members[0] == NoneType then [] else [members[0]]) + Others(members[1..])
  }

  function Replaced(members: seq<Annotation>, old': Annotation, new': Annotation): (r: seq<Annotation>)
    ensures |r| == |members|
    ensures forall i :: 0 <= i < |members| ==> r[i] == if members[i] == old' then new' else members[i]
  {
    seq(|members|, i requires 0 <= i < |members| => if members[i] == old' then new' else members[i])
  }

  /** The one `Annotated` layer markers are read from, or `None` where a marker sits elsewhere. */
  function MarkerLayer(a: Annotation): Option<(Annotation, seq<Meta>)> {
    if a.Annotated? then
      if CarriesAMarker(a.underlying) then None else Some((a.underlying, a.metadata))
    else if a.Union? && |Others(a.members)| == 1 && Others(a.members)[0].Annotated? then
      var marked := Others(a.members)[0];
      if CarriesAMarker(marked.underlying) then None
      else Some((UnionOf(Replaced(a.members, marked, marked.underlying)), marked.metadata))
    else if CarriesAMarker(a) then None
    else Some((a, []))
  }

  function ReadSchemaMarkers(a: Annotation): Read {
    match MarkerLayer(a)
    case None => Misplaced
    case Some((underlying, metadata)) =>
      var required, hidden := InputRequired in metadata, NotClientInput in metadata;
      if required && hidden then Contradiction else Markers(underlying, required, hidden)
  }

  datatype Description = Described(text: string) | Undescribed | TwoDescriptions | DescribedButHidden | Refused

  function Descriptions(metadata: seq<Meta>): (r: seq<string>)
    ensures forall t :: t in r <==> InputDescription(t) in metadata
  {
    if metadata == [] then []
    else (if metadata[0].InputDescription? then [metadata[0].text] else []) + Descriptions(metadata[1..])
  }

  /** Located again by the description's reader: the first member of a union that is not `None`. */
  function LayerMetadata(a: Annotation): seq<Meta>
    requires a.Union? ==> Others(a.members) != []
  {
    var layer := if a.Union? then Others(a.members)[0] else a;
    if layer.Annotated? then layer.metadata else []
  }

  function ReadInputDescription(a: Annotation): Description
    requires a.Union? ==> Others(a.members) != []
  {
    match ReadSchemaMarkers(a)
    case Markers(_, _, hidden) =>
      var declared := Descriptions(LayerMetadata(a));
      if declared == [] then Undescribed
      else if |declared| > 1 then TwoDescriptions
      else if hidden then DescribedButHidden
      else Described(declared[0])
    case _ => Refused
  }

  // --- what is carried is what there is

  lemma {:induction false} CarriesMeansMarkers(a: Annotation)
    ensures CarriesAMarker(a) <==> MarkersIn(a) != []
    decreases a
  {
    match a
    case Annotated(underlying, metadata) =>
      CarriesMeansMarkers(underlying);
      AnyMarkerMeansMarkers(metadata);
    case Union(members) => CarriesInAll(members);
    case Generic(_, args) => CarriesInArguments(args);
    case _ =>
  }

  lemma {:induction false} AnyMarkerMeansMarkers(metadata: seq<Meta>)
    ensures AnyMarker(metadata) <==> MarkersOf(metadata) != []
  {
    if metadata != [] {
      AnyMarkerMeansMarkers(metadata[1..]);
    }
  }

  lemma {:induction false} CarriesInAll(xs: seq<Annotation>)
    ensures AnyCarries(xs) <==> MarkersInAll(xs) != []
    decreases xs
  {
    if xs != [] {
      CarriesMeansMarkers(xs[0]);
      CarriesInAll(xs[1..]);
    }
  }

  lemma {:induction false} CarriesInArguments(args: seq<Argument>)
    ensures AnyArgumentCarries(args) <==> MarkersInArgs(args) != []
    decreases args
  {
    if args != [] {
      CarriesInArgument(args[0]);
      CarriesInArguments(args[1..]);
    }
  }

  lemma {:induction false} CarriesInArgument(arg: Argument)
    ensures ArgumentCarries(arg) <==> MarkersInArg(arg) != []
    decreases arg
  {
    CarriesInAll(arg.nested);
  }

  // --- the union rebuilt without its marked layer

  lemma {:induction false} FlattenKeeps(members: seq<Annotation>)
    requires MarkersInAll(members) == []
    ensures MarkersInAll(Flatten(members)) == []
  {
    if members != [] {
      FlattenKeeps(members[1..]);
      MarkersConcat(if members[0].Union? then members[0].members else [members[0]], Flatten(members[1..]));
    }
  }

  lemma {:induction false} MarkersConcat(xs: seq<Annotation>, ys: seq<Annotation>)
    ensures MarkersInAll(xs + ys) == MarkersInAll(xs) + MarkersInAll(ys)
  {
    if xs == [] {
      assert xs + ys == ys;
    } else {
      assert (xs + ys)[1..] == xs[1..] + ys;
      MarkersConcat(xs[1..], ys);
    }
  }

  lemma {:induction false} NoMarkersEach(xs: seq<Annotation>)
    ensures MarkersInAll(xs) == [] <==> forall x :: x in xs ==> MarkersIn(x) == []
  {
    if xs != [] {
      NoMarkersEach(xs[1..]);
      assert xs == [xs[0]] + xs[1..];
      assert xs[0] in xs && forall x :: x in xs[1..] ==> x in xs;
    }
  }

  lemma UnionOfKeeps(members: seq<Annotation>)
    requires MarkersInAll(members) == []
    ensures MarkersIn(UnionOf(members)) == []
  {
    FlattenKeeps(members);
    NoMarkersEach(Flatten(members));
    NoMarkersEach(Distinct(Flatten(members)));
  }

  /** An `Optional`'s markers are its one member's: the other is `None`. */
  lemma {:induction false} OptionalMarkers(members: seq<Annotation>, marked: Annotation)
    requires Others(members) == [marked]
    ensures MarkersInAll(members) == MarkersIn(marked)
    ensures MarkersInAll(Replaced(members, marked, marked)) == MarkersIn(marked)
  {
    assert Replaced(members, marked, marked) == members;
    if members[0] == NoneType {
      OptionalMarkers(members[1..], marked);
    } else {
      assert Others(members)[0] == marked && Others(members[1..]) == Others(members)[1..];
      forall x | x in members[1..] ensures MarkersIn(x) == [] {
        assert x in Others(members[1..]) || x == NoneType;
      }
      NoMarkersEach(members[1..]);
    }
  }

  // --- no marker is silently ignored

  /** Rebuilt without its marked layer, an `Optional` carries no marker, and the layer held them all. */
  lemma OptionalLayer(members: seq<Annotation>, marked: Annotation)
    requires Others(members) == [marked] && marked.Annotated? && !CarriesAMarker(marked.underlying)
    ensures MarkersIn(UnionOf(Replaced(members, marked, marked.underlying))) == []
    ensures MarkersOf(marked.metadata) == MarkersInAll(members)
  {
    CarriesMeansMarkers(marked.underlying);
    OptionalMarkers(members, marked);
    var rebuilt := Replaced(members, marked, marked.underlying);
    forall x | x in rebuilt ensures MarkersIn(x) == [] {
      var i :| 0 <= i < |rebuilt| && rebuilt[i] == x;
      assert members[i] in Others(members) || members[i] == NoneType;
    }
    NoMarkersEach(rebuilt);
    UnionOfKeeps(rebuilt);
  }

  lemma OneLayerHoldsAll(a: Annotation)
    requires MarkerLayer(a).Some?
    ensures MarkersIn(MarkerLayer(a).value.0) == [] && MarkersOf(MarkerLayer(a).value.1) == MarkersIn(a)
  {
    if a.Annotated? {
      CarriesMeansMarkers(a.underlying);
    } else if a.Union? && |Others(a.members)| == 1 && Others(a.members)[0].Annotated? {
      assert Others(a.members) == [Others(a.members)[0]];
      OptionalLayer(a.members, Others(a.members)[0]);
    } else {
      CarriesMeansMarkers(a);
    }
  }

  /** Where reading the markers succeeds, the type returned carries none, and the layer read held every
      one the annotation has, so `required` and `hidden` say exactly which it has. */
  lemma NoMarkerIsIgnored(a: Annotation)
    ensures MarkerLayer(a).Some? ==>
      && MarkersIn(MarkerLayer(a).value.0) == []
      && MarkersOf(MarkerLayer(a).value.1) == MarkersIn(a)
    ensures ReadSchemaMarkers(a).Markers? ==>
      && MarkersIn(ReadSchemaMarkers(a).underlying) == []
      && (ReadSchemaMarkers(a).required <==> InputRequired in MarkersIn(a))
      && (ReadSchemaMarkers(a).hidden <==> NotClientInput in MarkersIn(a))
  {
    if MarkerLayer(a).Some? {
      OneLayerHoldsAll(a);
    }
  }

  /** The layer a marker may sit on: the annotation itself, or the other member of `... | None`. */
  function OutermostLayer(a: Annotation): Annotation {
    if a.Union? && |a.members| == 2 && a.members[0] == NoneType then a.members[1]
    else if a.Union? && |a.members| == 2 && a.members[1] == NoneType then a.members[0]
    else a
  }

  /** No marker at all, or every one of them on the outermost layer. */
  ghost predicate WellPlaced(a: Annotation) {
    var layer := OutermostLayer(a);
    MarkersIn(a) == [] || (layer.Annotated? && MarkersOf(layer.metadata) == MarkersIn(a))
  }

  ghost predicate DifferentMembers(members: seq<Annotation>) {
    forall i, j :: 0 <= i < j < |members| ==> members[i] != members[j]
  }

  lemma {:induction false} OthersSize(members: seq<Annotation>)
    requires DifferentMembers(members)
    ensures |Others(members)| == |members| - if NoneType in members then 1 else 0
  {
    if members != [] {
      OthersSize(members[1..]);
      assert NoneType in members <==> members[0] == NoneType || NoneType in members[1..];
    }
  }

  /** One member that is not `None` is an `Optional`'s, and is its outermost layer. */
  lemma LoneMemberIsOutermost(a: Annotation)
    requires a.Union? && |a.members| >= 2 && DifferentMembers(a.members)
    ensures Others(a.members) != []
    ensures |Others(a.members)| == 1 <==> |a.members| == 2 && NoneType in a.members
    ensures |Others(a.members)| == 1 ==> Others(a.members) == [OutermostLayer(a)]
    ensures |Others(a.members)| != 1 ==> OutermostLayer(a) == a
  {
    OthersSize(a.members);
    var i := if a.members[0] == NoneType then 1 else 0;
    assert a.members[i] in Others(a.members);
  }

  /** Reading refuses a placement exactly where a marker would otherwise be ignored. */
  lemma RefusedExactlyWhereMisplaced(a: Annotation)
    requires WellFormed(a)
    ensures ReadSchemaMarkers(a) == Misplaced <==> !WellPlaced(a)
  {
    CarriesMeansMarkers(a);
    if a.Annotated? {
      CarriesMeansMarkers(a.underlying);
    } else if a.Union? {
      LoneMemberIsOutermost(a);
      var layer := OutermostLayer(a);
      if |Others(a.members)| == 1 && layer.Annotated? {
        OptionalMarkers(a.members, layer);
        CarriesMeansMarkers(layer.underlying);
      }
    }
  }

  /** Where the markers are read, the description's reader finds the descriptions of that layer, though
      it looks for the layer by a rule of its own. */
  lemma BothReadersReadOneLayer(a: Annotation)
    requires WellFormed(a)
    ensures a.Union? ==> Others(a.members) != []
    ensures MarkerLayer(a).Some? ==> Descriptions(LayerMetadata(a)) == Descriptions(MarkerLayer(a).value.1)
  {
    if a.Union? {
      LoneMemberIsOutermost(a);
      var first := Others(a.members)[0];
      if MarkerLayer(a).Some? && first.Annotated? && |Others(a.members)| != 1 {
        CarriesMeansMarkers(a);
        NoMarkersEach(a.members);
        CarriesMeansMarkers(first);
        NoDescriptions(first.metadata);
      }
    }
  }

  lemma {:induction false} NoDescriptions(metadata: seq<Meta>)
    requires MarkersOf(metadata) == []
    ensures Descriptions(metadata) == []
  {
    if metadata != [] {
      NoDescriptions(metadata[1..]);
    }
  }

  lemma {:induction false} DescriptionsAreMarkers(metadata: seq<Meta>)
    ensures Descriptions(MarkersOf(metadata)) == Descriptions(metadata)
  {
    if metadata != [] {
      DescriptionsAreMarkers(metadata[1..]);
      var rest := MarkersOf(metadata[1..]);
      assert if IsMarker(metadata[0]) then MarkersOf(metadata)[1..] == rest else MarkersOf(metadata) == rest;
    }
  }

  /** So what is published as an input's description is decided by the descriptions the whole annotation
      carries: the only one, none, or a refusal; and never beside a marker that hides the input. */
  lemma DescriptionIsTheAnnotations(a: Annotation)
    requires WellFormed(a)
    ensures a.Union? ==> Others(a.members) != []
    ensures ReadSchemaMarkers(a).Markers? ==>
      ReadInputDescription(a) ==
        var declared := Descriptions(MarkersIn(a));
        if declared == [] then Undescribed
        else if |declared| > 1 then TwoDescriptions
        else if NotClientInput in MarkersIn(a) then DescribedButHidden
        else Described(declared[0])
  {
    NoMarkerIsIgnored(a);
    BothReadersReadOneLayer(a);
    if MarkerLayer(a).Some? {
      DescriptionsAreMarkers(MarkerLayer(a).value.1);
    }
  }

  /** Reading answers a contradiction exactly where the markers are well placed and say both. */
  lemma ContradictionExactly(a: Annotation)
    requires WellFormed(a)
    ensures ReadSchemaMarkers(a) == Contradiction <==>
      WellPlaced(a) && InputRequired in MarkersIn(a) && NotClientInput in MarkersIn(a)
  {
    NoMarkerIsIgnored(a);
    RefusedExactlyWhereMisplaced(a);
    if MarkerLayer(a).Some? {
      OneLayerHoldsAll(a);
    }
  }

  // --- the type that is left

  /** What an annotation admits, each alternative without the layers around it. */
  function Alternatives(a: Annotation): set<Annotation>
    decreases a
  {
    match a
    case Annotated(underlying, _) => Alternatives(underlying)
    case Union(members) => AlternativesIn(members)
    case _ => {a}
  }

  function AlternativesIn(xs: seq<Annotation>): set<Annotation>
    decreases xs
  {
    if xs == [] then {} else Alternatives(xs[0]) + AlternativesIn(xs[1..])
  }

  lemma {:induction false} AlternativesEach(xs: seq<Annotation>, o: Annotation)
    ensures o in AlternativesIn(xs) <==> exists x :: x in xs && o in Alternatives(x)
  {
    if xs != [] {
      AlternativesEach(xs[1..], o);
      assert xs == [xs[0]] + xs[1..];
      assert xs[0] in xs;
    }
  }

  lemma {:induction false} FlattenAlternatives(members: seq<Annotation>, o: Annotation)
    ensures o in AlternativesIn(Flatten(members)) <==> o in AlternativesIn(members)
  {
    if members != [] {
      FlattenAlternatives(members[1..], o);
      var first := if members[0].Union? then members[0].members else [members[0]];
      AlternativesEach(first, o);
      AlternativesEach(Flatten(members[1..]), o);
      AlternativesEach(first + Flatten(members[1..]), o);
      if members[0].Union? {
        assert o in Alternatives(members[0]) <==> o in AlternativesIn(first);
      } else {
        assert o in Alternatives(members[0]) <==> o in AlternativesIn(first);
      }
    }
  }

  lemma UnionAlternatives(members: seq<Annotation>, o: Annotation)
    ensures o in Alternatives(UnionOf(members)) <==> o in AlternativesIn(members)
  {
    var flat := Flatten(members);
    FlattenAlternatives(members, o);
    AlternativesEach(flat, o);
    AlternativesEach(Distinct(flat), o);
    if |Distinct(flat)| == 1 {
      assert Distinct(flat) == [Distinct(flat)[0]];
    }
  }

  /** The type returned admits exactly what the annotation did, `None` among it where that did. */
  lemma ReadingKeepsTheType(a: Annotation)
    ensures MarkerLayer(a).Some? ==> Alternatives(MarkerLayer(a).value.0) == Alternatives(a)
    ensures ReadSchemaMarkers(a).Markers? ==> Alternatives(ReadSchemaMarkers(a).underlying) == Alternatives(a)
  {
    if a.Union? && |Others(a.members)| == 1 && Others(a.members)[0].Annotated? {
      var marked := Others(a.members)[0];
      var rebuilt := Replaced(a.members, marked, marked.underlying);
      forall o ensures o in Alternatives(UnionOf(rebuilt)) <==> o in Alternatives(a) {
        UnionAlternatives(rebuilt, o);
        AlternativesEach(rebuilt, o);
        AlternativesEach(a.members, o);
        SameAlternatives(a.members, marked, o);
      }
    }
  }

  lemma SameAlternatives(members: seq<Annotation>, marked: Annotation, o: Annotation)
    requires marked.Annotated?
    ensures (exists x :: x in Replaced(members, marked, marked.underlying) && o in Alternatives(x))
       <==> exists x :: x in members && o in Alternatives(x)
  {
    var rebuilt := Replaced(members, marked, marked.underlying);
    if x :| x in members && o in Alternatives(x) {
      var i :| 0 <= i < |members| && members[i] == x;
      assert rebuilt[i] in rebuilt && o in Alternatives(rebuilt[i]);
    }
    if x :| x in rebuilt && o in Alternatives(x) {
      var i :| 0 <= i < |rebuilt| && rebuilt[i] == x;
      assert members[i] in members && o in Alternatives(members[i]);
    }
  }

  /** And it is one `typing` would have built: a union's repeats are dropped, its unions flattened, and one of a single
      member is that member. */
  lemma ReadTypeIsWellFormed(a: Annotation)
    requires WellFormed(a)
    ensures MarkerLayer(a).Some? ==> WellFormed(MarkerLayer(a).value.0)
  {
    if a.Union? && |Others(a.members)| == 1 && Others(a.members)[0].Annotated? {
      var marked := Others(a.members)[0];
      assert marked in a.members;
      UnionIsWellFormed(Replaced(a.members, marked, marked.underlying));
    }
  }

  lemma UnionIsWellFormed(members: seq<Annotation>)
    requires members != [] && forall m :: m in members ==> WellFormed(m)
    ensures WellFormed(UnionOf(members))
  {
    var flat := Flatten(members);
    FlattenWellFormed(members);
    DistinctDiffer(flat);
    assert flat[0] in Distinct(flat);
  }

  lemma {:induction false} FlattenWellFormed(members: seq<Annotation>)
    requires forall m :: m in members ==> WellFormed(m)
    ensures forall m :: m in Flatten(members) ==> !m.Union? && WellFormed(m)
    ensures members != [] ==> Flatten(members) != []
  {
    if members != [] {
      assert members[0] in members && forall m :: m in members[1..] ==> m in members;
      FlattenWellFormed(members[1..]);
    }
  }

  lemma {:induction false} DistinctDiffer(xs: seq<Annotation>)
    ensures forall i, j :: 0 <= i < j < |Distinct(xs)| ==> Distinct(xs)[i] != Distinct(xs)[j]
  {
    if xs != [] {
      DistinctDiffer(xs[..|xs| - 1]);
    }
  }
}
