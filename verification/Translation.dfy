/**
  Refusals crossing between the kernel's classes and DRF's: an author's DRF
  exception leaves a compiled callable as the kernel's twin of it, the kernel's
  own refusal leaves the edge as DRF's twin of it, and the edge restores what an
  author raised. The handlers nest, one inside another, as calls do.
*/
module Translation {
  import opened Prelude

  /** The classes an `isinstance` here asks about; `Dual...` are this package's, each both sides'. */
  datatype Base =
    | ApiException | ValidationError | PermissionDenied | NotAuthenticated
    | DispatchError | KernelInvalidArguments | KernelNotPermitted | KernelPrincipalUnavailable
    | ServiceError | ServiceValidationError
    | DualInvalidArguments | DualNotPermitted | DualPrincipalUnavailable
    | DualNotAuthenticated | DualServiceValidationError

  function Parents(b: Base): set<Base> {
    match b
    case ValidationError => {ApiException}
    case PermissionDenied => {ApiException}
    case NotAuthenticated => {ApiException}
    case KernelInvalidArguments => {DispatchError}
    case KernelNotPermitted => {DispatchError}
    case KernelPrincipalUnavailable => {DispatchError}
    case ServiceValidationError => {ServiceError}
    case DualInvalidArguments => {KernelInvalidArguments, DispatchError, ValidationError, ApiException}
    case DualNotPermitted => {KernelNotPermitted, DispatchError, PermissionDenied, ApiException}
    case DualPrincipalUnavailable => {KernelPrincipalUnavailable, DispatchError, PermissionDenied, ApiException}
    case DualNotAuthenticated => {KernelNotPermitted, DispatchError, NotAuthenticated, ApiException}
    case DualServiceValidationError => {ServiceValidationError, ServiceError, ValidationError, ApiException}
    case _ => {}
  }

  /** An exception's class, as the set of those it is an instance of; any project subclass is one. */
  type Class = set<Base>

  ghost predicate Closed(c: Class) {
    forall b :: b in c ==> Parents(b) <= c
  }

  function Of(b: Base): Class { {b} + Parents(b) }

  predicate Kernels(c: Class) {
    DispatchError in c || ServiceError in c
  }

  /** The class a DRF refusal leaves an author's callable as, or `None` to leave it as raised. */
  function BuiltAs(c: Class): Option<Base> {
    if Kernels(c) then None
    else if NotAuthenticated in c then Some(DualNotAuthenticated)
    else if PermissionDenied in c then Some(DualNotPermitted)
    else if ValidationError in c then Some(DualServiceValidationError)
    else None
  }

  /** The class the kernel's refusal leaves the edge as, or `None` to leave it as raised. */
  function DrfTwinAs(c: Class): Option<Base>
    requires DispatchError in c
  {
    if ApiException in c then None
    else if KernelInvalidArguments in c then Some(DualInvalidArguments)
    else if KernelNotPermitted in c then Some(DualNotPermitted)
    else if KernelPrincipalUnavailable in c then Some(DualPrincipalUnavailable)
    else None
  }

  /** DRF's three classes a refusal may be caught by. */
  predicate DrfRefusal(b: Base) {
    b == ValidationError || b == PermissionDenied || b == NotAuthenticated
  }

  ghost predicate OfOneKind(c: Class) {
    forall a, b :: a in c && b in c && DrfRefusal(a) && DrfRefusal(b) ==> a == b
  }

  /** A twin is both sides' class, the kernel's denial of DRF's two and a service's validation error of its third,
      is never translated again by either handler, and an `except` written against one of DRF's three catches it
      exactly as it caught the original where the original was of one of them alone. */
  lemma TwinsAreBothSides(c: Class)
    requires Closed(c) && BuiltAs(c).Some?
    ensures var twin := Of(BuiltAs(c).value);
            && Kernels(twin) && ApiException in twin && BuiltAs(twin).None?
            && (KernelNotPermitted in twin <==> NotAuthenticated in c || PermissionDenied in c)
            && (ServiceValidationError in twin <==> KernelNotPermitted !in twin)
            && (DispatchError in twin ==> DrfTwinAs(twin).None?)
            && (forall b :: DrfRefusal(b) && b in twin ==> b in c)
            && ((forall b :: DrfRefusal(b) && b in c ==> b in twin) <==> OfOneKind(c))
  {
    var kept := if NotAuthenticated in c then NotAuthenticated
                else if PermissionDenied in c then PermissionDenied else ValidationError;
    var twin := Of(BuiltAs(c).value);
    assert kept in c && kept in twin;
    assert forall b :: DrfRefusal(b) && b in twin ==> b == kept;
  }

  /** The kernel's three classes a refusal may be caught by. */
  predicate KernelRefusal(b: Base) {
    b == KernelInvalidArguments || b == KernelNotPermitted || b == KernelPrincipalUnavailable
  }

  ghost predicate OfOneKernelKind(c: Class) {
    forall a, b :: a in c && b in c && KernelRefusal(a) && KernelRefusal(b) ==> a == b
  }

  /** What leaves the kernel as a dual: exactly a refusal of its three kinds that is not DRF's already. The dual is
      both sides' class, DRF's validation error of the arguments and its denial of the others, is never translated
      again, and an `except` written against one of the kernel's three catches it exactly as it caught the
      original where the original was of one of them alone. */
  lemma DualsAreBothSides(c: Class)
    requires Closed(c) && DispatchError in c
    ensures DrfTwinAs(c).Some? <==> ApiException !in c && exists b :: b in c && KernelRefusal(b)
    ensures DrfTwinAs(c).Some? ==>
              var dual := Of(DrfTwinAs(c).value);
              && DispatchError in dual && ApiException in dual && DrfTwinAs(dual).None? && BuiltAs(dual).None?
              && (ValidationError in dual <==> KernelInvalidArguments in c)
              && (PermissionDenied in dual <==> KernelInvalidArguments !in c) && NotAuthenticated !in dual
              && (forall b :: KernelRefusal(b) && b in dual ==> b in c)
              && ((forall b :: KernelRefusal(b) && b in c ==> b in dual) <==> OfOneKernelKind(c))
  {
    var kept := if KernelInvalidArguments in c then KernelInvalidArguments
                else if KernelNotPermitted in c then KernelNotPermitted else KernelPrincipalUnavailable;
    if DrfTwinAs(c).Some? {
      var dual := Of(DrfTwinAs(c).value);
      assert kept in c && KernelRefusal(kept) && kept in dual;
      assert forall b :: KernelRefusal(b) && b in dual ==> b == kept;
    }
  }

  /** A validation error renamed is of one of its own classes, a service's where it was a service's. */
  lemma RenamedIsOfItsOwnClass(c: Class)
    requires Closed(c) && IsValidation(c)
    ensures Of(RenamedAs(c)) <= c && (ServiceValidationError in Of(RenamedAs(c)) <==> ServiceValidationError in c)
  {
  }

  /** What is translated: exactly a DRF refusal of the three kinds that is not already the kernel's. */
  lemma TranslatedExactly(c: Class)
    ensures BuiltAs(c).Some? <==> !Kernels(c) && exists b :: b in c && DrfRefusal(b)
  {
    if BuiltAs(c).Some? {
      var kept := if NotAuthenticated in c then NotAuthenticated
                  else if PermissionDenied in c then PermissionDenied else ValidationError;
      assert kept in c && DrfRefusal(kept);
    }
  }

  // --- the exceptions themselves, by identity

  class Refusal {
    const bases: Class
    var detail: int
    var message: int
    var statusCode: int
    var translatedFrom: Refusal?
    var context: Refusal?
    var cause: Refusal?

    constructor (bases: Class, detail: int, message: int, statusCode: int)
      ensures this.bases == bases && this.detail == detail && this.message == message && this.statusCode == statusCode
      ensures translatedFrom == null && context == null && cause == null
    {
      this.bases, this.detail, this.message, this.statusCode := bases, detail, message, statusCode;
      translatedFrom, context, cause := null, null, null;
    }
  }

  const DEFAULT_STATUS := 400

  /** The exception as it was: what it says, and the context it was raised in. */
  twostate predicate Untouched(exc: Refusal)
    reads exc
  {
    unchanged(exc)
  }

  /** The handler around an author's callable. The twin carries the detail and status of what was raised,
      and the exception itself. */
  method TranslateDrfRefusals(exc: Refusal) returns (out: Refusal)
    ensures ApiException !in exc.bases || BuiltAs(exc.bases).None? ==> out == exc
    ensures ApiException in exc.bases && BuiltAs(exc.bases).Some? ==>
      && fresh(out) && out.bases == Of(BuiltAs(exc.bases).value)
      && out.detail == exc.detail && out.statusCode == exc.statusCode
      && out.translatedFrom == exc && out.cause == exc && out.context == exc
  {
    out := exc;
    if ApiException in exc.bases {
      var built := BuiltAs(exc.bases);
      if built.Some? {
        out := new Refusal(Of(built.value), exc.detail, exc.message, DEFAULT_STATUS);
        out.detail := exc.detail;
        out.statusCode := exc.statusCode;
        out.translatedFrom := exc;
        out.cause, out.context := exc, exc;
      }
    }
  }

  /** The handler around the kernel's dispatch. */
  method TranslateDispatchErrors(exc: Refusal) returns (out: Refusal)
    ensures DispatchError !in exc.bases || DrfTwinAs(exc.bases).None? ==> out == exc
    ensures DispatchError in exc.bases && DrfTwinAs(exc.bases).Some? ==>
      && fresh(out) && out.bases == Of(DrfTwinAs(exc.bases).value)
      && out.detail == exc.detail && out.message == exc.message
      && out.translatedFrom == null && out.cause == exc && out.context == exc
  {
    out := exc;
    if DispatchError in exc.bases {
      var twin := DrfTwinAs(exc.bases);
      if twin.Some? {
        out := new Refusal(Of(twin.value), exc.detail, exc.message, DEFAULT_STATUS);
        out.message := exc.message;
        out.cause, out.context := exc, exc;
      }
    }
  }

  /** How an edge's spec takes its input: with no serializer; by keys; or as bare rows, which a list serializer
      refuses in words of its own, as no list or in the shape of one. A serializer's `source=` renames what a
      service raises. */
  datatype Input =
    | NoSerializer
    | Keyed(renamed: int -> int)
    | BareRows(notAList: Option<int>, unwrapped: int -> Option<int>, renamed: int -> int)

  /** An edge call: its input, DRF's refusal of params that are no object where they are none, and its wording
      of a refusal of the arguments. */
  datatype Edge = Edge(input: Input, notAnObject: Option<int>, reworded: int -> int)

  /** What an edge raises in place of a refusal of the arguments, by class and detail; `None` leaves it as it is. */
  function Replaced(edge: Edge, detail: int): Option<(Base, int)> {
    var reworded := edge.reworded(detail);
    var kept := if reworded == detail then None else Some((DualInvalidArguments, reworded));
    match edge.input
    case BareRows(notAList, unwrapped, _) =>
      if notAList.Some? then Some((ValidationError, notAList.value))
      else if unwrapped(reworded).Some? then Some((ValidationError, unwrapped(reworded).value))
      else kept
    case _ => if edge.notAnObject.Some? then Some((DualInvalidArguments, edge.notAnObject.value)) else kept
  }

  /** How a service's validation error is worded by an edge, where it has a serializer to name it by. */
  function RenamedDetail(edge: Edge, detail: int): Option<int> {
    match edge.input
    case NoSerializer => None
    case Keyed(renamed) => Some(renamed(detail))
    case BareRows(_, _, renamed) => Some(renamed(detail))
  }

  /** What stands in for a refusal of the arguments: DRF's validation error exactly for bare rows it refuses as no list
      or in a list's shape, and otherwise this package's refusal, of params that are no object or reworded; nothing
      where the words are the same. */
  lemma ReplacedExactly(edge: Edge, detail: int)
    ensures var reworded, r := edge.reworded(detail), Replaced(edge, detail);
            match edge.input
            case BareRows(notAList, unwrapped, _) =>
              && (r.Some? && r.value.0 == ValidationError <==> notAList.Some? || unwrapped(reworded).Some?)
              && (notAList.Some? ==> r.value.1 == notAList.value)
              && (notAList.None? && unwrapped(reworded).Some? ==> r.value.1 == unwrapped(reworded).value)
              && (notAList.None? && unwrapped(reworded).None? ==>
                    (r.Some? <==> reworded != detail) && (r.Some? ==> r.value == (DualInvalidArguments, reworded)))
            case _ =>
              && (edge.notAnObject.Some? ==> r == Some((DualInvalidArguments, edge.notAnObject.value)))
              && (edge.notAnObject.None? ==>
                    (r.Some? <==> reworded != detail) && (r.Some? ==> r.value == (DualInvalidArguments, reworded)))
  {
  }

  /** A validation error is renamed exactly where there is a serializer to name it by, whichever way it takes rows. */
  lemma RenamedExactly(edge: Edge, detail: int)
    ensures RenamedDetail(edge, detail).Some? <==> !edge.input.NoSerializer?
    ensures !edge.input.NoSerializer? ==> RenamedDetail(edge, detail) == Some(edge.input.renamed(detail))
  {
  }

  /** What an edge restores: the exception an author raised, where the refusal carries one. */
  function Restored(exc: Refusal): Refusal
    reads exc
  {
    if ApiException in exc.bases && exc.translatedFrom != null then exc.translatedFrom else exc
  }

  /** The classes a refusal has once the kernel's own is translated. */
  function LeftAs(bases: Class): Class {
    if DispatchError in bases && DrfTwinAs(bases).Some? then Of(DrfTwinAs(bases).value) else bases
  }

  predicate IsTranslated(bases: Class) {
    DispatchError in bases && DrfTwinAs(bases).Some?
  }

  predicate IsValidation(bases: Class) {
    ServiceValidationError in bases || ValidationError in bases
  }

  /** The class a renamed validation error is raised as. */
  function RenamedAs(bases: Class): Base {
    if ServiceValidationError in bases then ServiceValidationError else ValidationError
  }

  const DEFAULT_MESSAGE := 0

  /** Another raised from `was`, of that class and with that detail. */
  method RaiseInPlace(base: Base, detail: int, was: Refusal) returns (out: Refusal)
    ensures fresh(out) && out.bases == Of(base) && out.detail == detail && out.translatedFrom == null
    ensures out.cause == was && out.context == was
  {
    out := new Refusal(Of(base), detail, DEFAULT_MESSAGE, DEFAULT_STATUS);
    out.cause, out.context := was, was;
  }

  /** What an edge answers a refusal with, once any exception of an author's is restored. */
  ghost predicate Answers(edge: Edge, inner: Refusal, out: Refusal)
    reads inner, out
  {
    var left := LeftAs(inner.bases);
    var replaced := Replaced(edge, inner.detail);
    var renamed := RenamedDetail(edge, inner.detail);
    if DualInvalidArguments in left && replaced.Some? then
      out != inner && out.bases == Of(replaced.value.0) && out.detail == replaced.value.1
    else if DualInvalidArguments !in left && (ServiceValidationError in left || ValidationError in left)
        && renamed.Some? then
      out != inner && out.bases == Of(RenamedAs(left)) && out.detail == renamed.value
    else if IsTranslated(inner.bases) then
      out != inner && out.bases == left && out.detail == inner.detail && out.message == inner.message
          && out.cause == inner
    else out == inner
  }

  /** The handlers around a whole edge call: an author's exception restored, its context put back; the kernel's
      own translated; then a refusal of the arguments replaced, or a validation error renamed, where the edge
      has anything to put in its place, and the refusal as it is otherwise. */
  method EdgeErrors(exc: Refusal, edge: Edge) returns (out: Refusal)
    requires ApiException in exc.bases && exc.translatedFrom != null ==>
      exc.translatedFrom != exc && !Kernels(exc.translatedFrom.bases) && exc.translatedFrom.translatedFrom == null
    modifies exc.translatedFrom
    ensures exc.translatedFrom == old(exc.translatedFrom)
    ensures exc.translatedFrom != null ==> Untouched(exc.translatedFrom)
    ensures out == Restored(exc) || fresh(out)
    ensures fresh(out) ==> out.translatedFrom == null
    ensures Answers(edge, Restored(exc), out)
  {
    var inner := exc;
    if ApiException in exc.bases && exc.translatedFrom != null {
      // Raising the author's exception here makes the twin its context until it is put back.
      inner := exc.translatedFrom;
      var context := inner.context;
      inner.context := exc;
      inner.context := context;
    }
    out := TranslateDispatchErrors(inner);
    if DualInvalidArguments in out.bases {
      var replaced := Replaced(edge, out.detail);
      if replaced.Some? {
        out := RaiseInPlace(replaced.value.0, replaced.value.1, out);
      }
    } else if IsValidation(out.bases) {
      var renamed := RenamedDetail(edge, out.detail);
      if renamed.Some? {
        out := RaiseInPlace(RenamedAs(out.bases), renamed.value, out);
      }
    }
  }

  // --- any nesting of them

  /** A handler a refusal leaves through: an author callable's, or an edge call's. */
  datatype Frame = Translating | AtEdge(edge: Edge)

  /** A refusal every edge reads as one of the arguments. */
  predicate OfArguments(bases: Class) {
    DualInvalidArguments in LeftAs(bases)
  }

  /** No edge renames the refusal, or puts another kind in its place: none has an input serializer; or it is no
      validation error; or it is a refusal of the arguments, and no edge takes bare rows. */
  ghost predicate NothingRenamed(frames: seq<Frame>, bases: Class) {
    || (forall f :: f in frames && f.AtEdge? ==> f.edge.input.NoSerializer?)
    || !(IsValidation(bases) || KernelInvalidArguments in bases)
    || (OfArguments(bases) && forall f :: f in frames && f.AtEdge? ==> !f.edge.input.BareRows?)
  }

  ghost predicate HasEdge(frames: seq<Frame>) {
    exists f :: f in frames && f.AtEdge?
  }

  /** No edge puts anything in place of a refusal of the arguments with this detail. */
  ghost predicate NothingReplaced(frames: seq<Frame>, detail: int) {
    forall f :: f in frames && f.AtEdge? ==> Replaced(f.edge, detail).None?
  }

  /** The detail a refusal of the arguments is left with, each edge's wording over the one before. */
  function DetailThrough(frames: seq<Frame>, detail: int): int {
    if frames == [] then detail
    else
      var before := DetailThrough(frames[..|frames| - 1], detail);
      var last := frames[|frames| - 1];
      if last.AtEdge? && Replaced(last.edge, before).Some? then Replaced(last.edge, before).value.1 else before
  }

  /** An exception an author raised against DRF alone. */
  predicate AuthorsDrf(exc: Refusal)
    reads exc
  {
    ApiException in exc.bases && !Kernels(exc.bases) && exc.translatedFrom == null
  }

  lemma OneFrameMore(frames: seq<Frame>, frame: Frame, detail: int)
    ensures HasEdge(frames + [frame]) <==> HasEdge(frames) || frame.AtEdge?
    ensures NothingReplaced(frames + [frame], detail)
       <==> NothingReplaced(frames, detail) && (frame.AtEdge? ==> Replaced(frame.edge, detail).None?)
  {
    var more := frames + [frame];
    assert forall f :: f in more <==> f in frames || f == frame;
  }

  /** An author's DRF exception on its way: itself, or a kernel's twin of it that carries it. */
  ghost predicate Carried(exc: Refusal, out: Refusal)
    reads exc, out
  {
    || out == exc
    || (&& out.translatedFrom == exc && BuiltAs(exc.bases).Some? && out.bases == Of(BuiltAs(exc.bases).value)
        && out.detail == exc.detail && out.statusCode == exc.statusCode)
  }

  /** Any other refusal on its way, none of the arguments: itself, or past an edge the dual class of its kind. */
  ghost predicate LeftAsItsDual(exc: Refusal, out: Refusal, pastEdge: bool)
    reads exc, out
  {
    if IsTranslated(exc.bases) && pastEdge then
      out.bases == LeftAs(exc.bases) && out.detail == exc.detail && out.message == exc.message && out.cause == exc
    else out == exc
  }

  /** A refusal of the arguments on its way: past an edge always this package's `InvalidArguments`, however it
      was worded, and the very exception where it was one already and no edge put anything in its place. */
  ghost predicate LeftAsArguments(exc: Refusal, out: Refusal, frames: seq<Frame>)
    reads exc, out
  {
    && out.detail == DetailThrough(frames, exc.detail)
    && (if IsTranslated(exc.bases) then
          && (!HasEdge(frames) ==> out == exc)
          && (HasEdge(frames) ==> out != exc && out.bases == Of(DualInvalidArguments))
          && (HasEdge(frames) && NothingReplaced(frames, exc.detail) ==> out.message == exc.message && out.cause == exc)
        else
          && (out == exc <==> NothingReplaced(frames, exc.detail))
          && (out != exc ==> out.bases == Of(DualInvalidArguments)))
  }

  /** A twin on its way carries an exception of DRF's alone that carries none. */
  ghost predicate OriginIsDrfs(out: Refusal)
    reads out, out.translatedFrom
  {
    var origin := out.translatedFrom;
    origin != null ==> Kernels(out.bases) && origin != out && !Kernels(origin.bases) && origin.translatedFrom == null
  }

  /** A refusal `exc` on its way through `frames` as `out`. */
  ghost predicate OnItsWay(exc: Refusal, out: Refusal, frames: seq<Frame>)
    reads exc, out, out.translatedFrom
  {
    && OriginIsDrfs(out)
    && (AuthorsDrf(exc) ==> Carried(exc, out))
    && (!AuthorsDrf(exc) ==>
          && out.translatedFrom == null
          && (if OfArguments(exc.bases) then LeftAsArguments(exc, out, frames)
              else LeftAsItsDual(exc, out, HasEdge(frames))))
  }

  /** Out of an author's callable. */
  method LeaveCallable(exc: Refusal, was: Refusal, ghost frames: seq<Frame>) returns (out: Refusal)
    requires Closed(exc.bases) && exc.translatedFrom == null && OnItsWay(exc, was, frames)
    ensures out == was || (fresh(out) && out.translatedFrom == was)
    ensures OnItsWay(exc, out, frames + [Translating])
  {
    OneFrameMore(frames, Translating, exc.detail);
    assert (frames + [Translating])[..|frames|] == frames;
    out := TranslateDrfRefusals(was);
  }

  lemma NoneRenamedAt(edge: Edge, bases: Class, detail: int)
    requires Closed(bases) && NothingRenamed([AtEdge(edge)], bases)
    ensures edge.input.NoSerializer? || !(IsValidation(bases) || KernelInvalidArguments in bases)
         || (OfArguments(bases) && !edge.input.BareRows?)
    ensures IsValidation(bases) && !OfArguments(bases) ==> RenamedDetail(edge, detail).None?
    ensures OfArguments(bases) && Replaced(edge, detail).Some? ==>
      Replaced(edge, detail).value.0 == DualInvalidArguments
  {
    assert AtEdge(edge) in [AtEdge(edge)];
    ArgumentsAreTheKernels(bases);
  }

  lemma ArgumentsAreTheKernels(bases: Class)
    requires Closed(bases)
    ensures OfArguments(bases) ==> KernelInvalidArguments in bases
  {
  }

  /** An edge hands an author's exception back. */
  lemma AuthorsComeBack(edge: Edge, exc: Refusal, was: Refusal, out: Refusal)
    requires Closed(exc.bases) && AuthorsDrf(exc) && Carried(exc, was) && NothingRenamed([AtEdge(edge)], exc.bases)
    requires Answers(edge, Restored(was), out)
    ensures out == exc
  {
    assert Restored(was) == exc;
    assert LeftAs(exc.bases) == exc.bases && DualInvalidArguments !in exc.bases;
    NoneRenamedAt(edge, exc.bases, exc.detail);
  }

  /** An edge leaves a refusal of the arguments one, with the detail it words it with. */
  lemma ArgumentsStayArguments(edge: Edge, exc: Refusal, was: Refusal, out: Refusal, frames: seq<Frame>)
    requires Closed(exc.bases) && OfArguments(exc.bases) && NothingRenamed([AtEdge(edge)], exc.bases)
    requires LeftAsArguments(exc, was, frames) && Answers(edge, was, out) && (out == was || out != exc)
    ensures LeftAsArguments(exc, out, frames + [AtEdge(edge)])
  {
    OneFrameMore(frames, AtEdge(edge), exc.detail);
    assert (frames + [AtEdge(edge)])[..|frames|] == frames;
    NoneRenamedAt(edge, exc.bases, was.detail);
    assert DualInvalidArguments in LeftAs(was.bases);
    if NothingReplaced(frames, exc.detail) {
      NothingReplacedKeepsDetail(frames, exc.detail);
    }
  }

  lemma {:induction false} NothingReplacedKeepsDetail(frames: seq<Frame>, detail: int)
    requires NothingReplaced(frames, detail)
    ensures DetailThrough(frames, detail) == detail
  {
    if frames != [] {
      var front, last := frames[..|frames| - 1], frames[|frames| - 1];
      assert frames == front + [last];
      OneFrameMore(front, last, detail);
      NothingReplacedKeepsDetail(front, detail);
    }
  }

  /** An edge leaves any other refusal as itself, or as the dual class of its kind. */
  lemma OthersLeaveAsTheirDual(edge: Edge, exc: Refusal, was: Refusal, out: Refusal, pastEdge: bool)
    requires Closed(exc.bases) && !OfArguments(exc.bases) && NothingRenamed([AtEdge(edge)], exc.bases)
    requires LeftAsItsDual(exc, was, pastEdge) && Answers(edge, was, out)
    ensures LeftAsItsDual(exc, out, true)
  {
    NoneRenamedAt(edge, exc.bases, was.detail);
  }

  /** Out of an edge call. */
  method LeaveEdge(edge: Edge, exc: Refusal, was: Refusal, ghost frames: seq<Frame>) returns (out: Refusal)
    requires Closed(exc.bases) && exc.translatedFrom == null && NothingRenamed([AtEdge(edge)], exc.bases)
    requires OnItsWay(exc, was, frames)
    modifies was.translatedFrom
    ensures was.translatedFrom == old(was.translatedFrom)
            && (was.translatedFrom != null ==> Untouched(was.translatedFrom))
    ensures out == was || out == was.translatedFrom || (fresh(out) && out.translatedFrom == null)
    ensures OnItsWay(exc, out, frames + [AtEdge(edge)])
    ensures AuthorsDrf(exc) ==> out == exc
  {
    OneFrameMore(frames, AtEdge(edge), exc.detail);
    out := EdgeErrors(was, edge);
    if AuthorsDrf(exc) {
      AuthorsComeBack(edge, exc, was, out);
    } else if OfArguments(exc.bases) {
      ArgumentsStayArguments(edge, exc, was, out, frames);
    } else {
      OthersLeaveAsTheirDual(edge, exc, was, out, HasEdge(frames));
    }
  }

  /** What leaves is of none of the kernel's kinds that was not the refusal's, and of the one that was. */
  ghost predicate KernelKindsKept(was: Class, left: Class) {
    && (forall b :: KernelRefusal(b) && b in left ==> b in was)
    && (OfOneKernelKind(was) ==> forall b :: KernelRefusal(b) && b in was ==> b in left)
  }

  lemma KindsOnTheWay(exc: Refusal, out: Refusal, frames: seq<Frame>)
    requires Closed(exc.bases) && !AuthorsDrf(exc) && OnItsWay(exc, out, frames)
    ensures KernelKindsKept(exc.bases, out.bases)
    ensures HasEdge(frames) && (exists b :: KernelRefusal(b) && b in exc.bases) ==> ApiException in out.bases
  {
    ArgumentsAreTheKernels(exc.bases);
    if DispatchError in exc.bases {
      DualsAreBothSides(exc.bases);
    }
  }

  /** A refusal leaving through `frames`, innermost first, where no edge renames it.
      An author's DRF exception leaves an outermost edge as that very exception, as it was raised. A refusal of
      the arguments leaves past an edge as this package's `InvalidArguments`, however each edge words it, and one
      that already was stays itself exactly where no edge puts anything in its place. Any other that is both
      sides' leaves as itself, and the kernel's own leaves, past an edge, as its DRF twin. So whatever of the kernel's
      kinds a refusal is of, it stays of where it is of one alone, and it is of no other; past an edge it is DRF's
      too. */
  method {:induction false} Propagate(frames: seq<Frame>, exc: Refusal) returns (out: Refusal)
    requires Closed(exc.bases) && exc.translatedFrom == null && NothingRenamed(frames, exc.bases)
    modifies exc
    ensures Untouched(exc)
    ensures AuthorsDrf(exc) ==> Carried(exc, out) && (frames != [] && frames[|frames| - 1].AtEdge? ==> out == exc)
    ensures OfArguments(exc.bases) ==> LeftAsArguments(exc, out, frames)
    ensures ApiException in exc.bases && Kernels(exc.bases) && !OfArguments(exc.bases) ==> out == exc
    ensures ApiException !in exc.bases && !OfArguments(exc.bases) ==> LeftAsItsDual(exc, out, HasEdge(frames))
    ensures !AuthorsDrf(exc) ==> KernelKindsKept(exc.bases, out.bases)
    ensures !AuthorsDrf(exc) && HasEdge(frames) && (exists b :: KernelRefusal(b) && b in exc.bases) ==>
              ApiException in out.bases
  {
    out := exc;
    for i := 0 to |frames|
      invariant Untouched(exc)
      invariant out == exc || fresh(out)
      invariant out.translatedFrom != null ==> out.translatedFrom == exc || fresh(out.translatedFrom)
      invariant OnItsWay(exc, out, frames[..i])
      invariant AuthorsDrf(exc) && i > 0 && frames[i - 1].AtEdge? ==> out == exc
    {
      assert frames[..i + 1] == frames[..i] + [frames[i]];
      match frames[i]
      case AtEdge(edge) =>
        assert NothingRenamed([AtEdge(edge)], exc.bases);
        out := LeaveEdge(edge, exc, out, frames[..i]);
      case Translating =>
        out := LeaveCallable(exc, out, frames[..i]);
    }
    assert frames[..|frames|] == frames;
    if !AuthorsDrf(exc) {
      KindsOnTheWay(exc, out, frames);
    }
  }
}
