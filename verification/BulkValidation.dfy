/**
  A bulk call's rows validated once, by the list serializer DRF builds: which rows
  reach it, whose bounds judge them, and what the call is refused with.
*/
module BulkValidation {
  import opened Prelude
  import opened Refusals
  import opened RowRefusals

  type Row = int
  type Value = int

  /** What the child serializer makes of one row; an invalid row has at least one error. */
  datatype Judged = Valid(value: Value) | Invalid(errors: Detail)

  datatype Listed = Accepted(values: seq<Value>) | RefusedWith(errors: Detail)

  datatype Outcome =
    | Validated(values: seq<Value>)
    | InvalidArguments(detail: seq<Entry>)
    | UnexpectedArguments(names: seq<string>)

  function Told(code: string): Detail {
    Table([Entry(NON_FIELD, Lines([Message(code, code)]))])
  }

  /** DRF's list serializer: its length bounds first, then each row, then its own checks. */
  class ListSerializer {
    const judge: Row -> Judged
    const listErrors: seq<Value> -> Option<Detail>
    /** DRF from 3.18 reports the invalid rows' positions, before it a list with an entry per row. */
    const reportsMapping: bool
    const maxLength: Option<int>
    var minLength: Option<int>
    var allowEmpty: bool

    constructor (judge: Row -> Judged, listErrors: seq<Value> -> Option<Detail>, reportsMapping: bool,
                 allowEmpty: bool, minLength: Option<int>, maxLength: Option<int>)
      ensures this.judge == judge && this.listErrors == listErrors && this.reportsMapping == reportsMapping
      ensures this.allowEmpty == allowEmpty && this.minLength == minLength && this.maxLength == maxLength
    {
      this.judge, this.listErrors, this.reportsMapping := judge, listErrors, reportsMapping;
      this.allowEmpty, this.minLength, this.maxLength := allowEmpty, minLength, maxLength;
    }

    /** An invalid row's errors are not empty, and the list's own refusal is a mapping under no row. */
    ghost predicate Valid() {
      && (forall row: Row :: Judge(row).Invalid? ==> !Empty(Judge(row).errors))
      && (forall values :: listErrors(values).Some? ==>
            var d := listErrors(values).value;
            d.Table? && IsDict(d.entries) && forall e :: e in d.entries ==> e.key.Name?)
    }

    function Judge(row: Row): Judged { judge(row) }

    function LengthRefusal(count: nat): Option<Detail>
      reads this
    {
      if !allowEmpty && count == 0 then Some(Told("empty"))
      else if maxLength.Some? && count > maxLength.value then Some(Told("max_length"))
      else if minLength.Some? && count < minLength.value then Some(Told("min_length"))
      else None
    }

    function Errors(rows: seq<Row>): seq<Detail> {
      if rows == [] then []
      else [if Judge(rows[0]).Valid? then NO_ERRORS else Judge(rows[0]).errors] + Errors(rows[1..])
    }

    function Values(rows: seq<Row>): seq<Value> {
      if rows == [] then []
      else (if Judge(rows[0]).Valid? then [Judge(rows[0]).value] else []) + Values(rows[1..])
    }

    /** `to_internal_value`. */
    function ToInternalValue(rows: seq<Row>): Listed
      reads this
    {
      if LengthRefusal(|rows|).Some? then RefusedWith(LengthRefusal(|rows|).value)
      else if Positions(Errors(rows), 0) == [] then Accepted(Values(rows))
      else RefusedWith(if reportsMapping then Table(Positions(Errors(rows), 0)) else Lines(Errors(rows)))
    }

    /** `is_valid` and what it leaves. */
    function IsValid(rows: seq<Row>): Listed
      reads this
    {
      match ToInternalValue(rows)
      case RefusedWith(errors) => RefusedWith(errors)
      case Accepted(values) =>
        if listErrors(values).Some? then RefusedWith(listErrors(values).value) else Accepted(values)
    }

    lemma {:induction false} ErrorsOfRows(rows: seq<Row>)
      requires Valid()
      ensures |Errors(rows)| == |rows|
      ensures forall i :: 0 <= i < |rows| ==>
        Errors(rows)[i] == if Judge(rows[i]).Valid? then NO_ERRORS else Judge(rows[i]).errors
      ensures forall i :: 0 <= i < |rows| ==> (Empty(Errors(rows)[i]) <==> Judge(rows[i]).Valid?)
    {
      if rows != [] {
        ErrorsOfRows(rows[1..]);
        forall i | 0 <= i < |rows|
          ensures Errors(rows)[i] == if Judge(rows[i]).Valid? then NO_ERRORS else Judge(rows[i]).errors
          ensures Empty(Errors(rows)[i]) <==> Judge(rows[i]).Valid?
        {
          assert Empty(NO_ERRORS);
          assert i > 0 ==> Errors(rows)[i] == Errors(rows[1..])[i - 1] && rows[i] == rows[1..][i - 1];
        }
      }
    }

    /** How many rows the list takes. */
    ghost predicate WithinBounds(count: nat)
      reads this
    {
      && (count == 0 ==> allowEmpty) && (maxLength.Some? ==> count <= maxLength.value)
      && (minLength.Some? ==> count >= minLength.value)
    }

    lemma {:induction false} ValuesOfRows(rows: seq<Row>)
      requires forall i :: 0 <= i < |rows| ==> Judge(rows[i]).Valid?
      ensures |Values(rows)| == |rows| && forall i :: 0 <= i < |rows| ==> Values(rows)[i] == Judge(rows[i]).value
    {
      if rows != [] {
        ValuesOfRows(rows[1..]);
      }
    }

    /** What a list of rows is accepted for: its length, every row, and the list's own checks; with each row's value in
        its place. Its length is refused before any row is read, under the list's own key. */
    lemma ListJudged(rows: seq<Row>)
      requires Valid()
      ensures IsValid(rows).Accepted? <==>
        && WithinBounds(|rows|) && (forall i :: 0 <= i < |rows| ==> Judge(rows[i]).Valid?)
        && listErrors(Values(rows)).None?
      ensures IsValid(rows).Accepted? ==>
        && |IsValid(rows).values| == |rows|
        && forall i :: 0 <= i < |rows| ==> IsValid(rows).values[i] == Judge(rows[i]).value
      ensures !WithinBounds(|rows|) ==>
        var code := if |rows| == 0 && !allowEmpty then "empty"
                    else if maxLength.Some? && |rows| > maxLength.value then "max_length" else "min_length";
        IsValid(rows) == RefusedWith(Table([Entry(Name("non_field_errors"), Lines([Message(code, code)]))]))
    {
      AllRowsValid(rows);
      if forall i :: 0 <= i < |rows| ==> Judge(rows[i]).Valid? {
        ValuesOfRows(rows);
      }
    }

    lemma AllRowsValid(rows: seq<Row>)
      requires Valid()
      ensures Positions(Errors(rows), 0) == [] <==> forall p :: 0 <= p < |rows| ==> Judge(rows[p]).Valid?
    {
      ErrorsOfRows(rows);
      var es := Errors(rows);
      if Positions(es, 0) != [] {
        var e := Positions(es, 0)[0];
        PositionsGet(es, 0, e.key);
      }
      forall p | 0 <= p < |rows| && Judge(rows[p]).Invalid? ensures Positions(es, 0) != [] {
        PositionsGet(es, 0, Index(p));
      }
    }

    lemma ReportsInRange(rows: seq<Row>, errors: Detail)
      requires Valid() && (IsValid(rows) == RefusedWith(errors) || ToInternalValue(rows) == RefusedWith(errors))
      ensures errors.Lines? || (errors.Table? && IsDict(errors.entries))
      ensures InRange(Reported(errors), |rows|)
    {
      ErrorsOfRows(rows);
      PositionsGet(Errors(rows), 0, NON_FIELD);
    }
  }

  /** A list serializer's refusal of `count` rows by its bounds, asked of the list the caller sent. */
  function BoundRefusal(maxLength: Option<int>, minLength: Option<int>, count: nat): Option<Detail> {
    if maxLength.Some? && count > maxLength.value then Some(Told("max_length"))
    else if minLength.None? || count >= minLength.value then None
    else Some(Told("min_length"))
  }

  function Picked(sent: seq<Row>, indices: seq<int>): (r: seq<Row>)
    requires forall p :: 0 <= p < |indices| ==> 0 <= indices[p] < |sent|
    ensures |r| == |indices| && forall p :: 0 <= p < |indices| ==> r[p] == sent[indices[p]]
  {
    seq(|indices|, p requires 0 <= p < |indices| => sent[indices[p]])
  }

  /** What one edge call carries for its bulk rows. `sent` is the body the edge holds for this Validator. */
  class EdgeRows {
    const sent: Option<seq<Row>>
    const bodyRows: bool
    const besideRows: seq<string>
    var rowErrors: Option<Detail>

    constructor (sent: Option<seq<Row>>, bodyRows: bool, besideRows: seq<string>)
      ensures this.sent == sent && this.bodyRows == bodyRows && this.besideRows == besideRows && rowErrors == None
    {
      this.sent, this.bodyRows, this.besideRows, rowErrors := sent, bodyRows, besideRows, None;
    }

    predicate Whole() { sent.Some? && bodyRows }

    /** The indices of the rows the list serializer is bound to: every one sent for a live view's list
        body, and those the kernel passed otherwise. */
    function Indices(passed: seq<int>): seq<int> {
      if Whole() then Range(|sent.value|) else passed
    }

    predicate EveryRow(passed: seq<int>) {
      sent.Some? && Indices(passed) == Range(|sent.value|)
    }
  }

  function Earned(listed: ListSerializer, row: Row): Option<Detail> {
    if listed.Judge(row).Invalid? then Some(listed.Judge(row).errors) else None
  }

  /** The refusal holds under each index exactly the errors the row bound for it earned, and nothing else. */
  ghost predicate RowsKeyed(detail: seq<Entry>, listed: ListSerializer, rows: seq<Row>, indices: seq<int>)
    requires |rows| == |indices|
  {
    && (forall p :: 0 <= p < |indices| ==> Get(detail, Index(indices[p])) == Earned(listed, rows[p]))
    && (forall i :: i !in indices ==> Get(detail, Index(i)) == None)
    && (forall name :: Get(detail, Name(name)) == None)
  }

  /** A list of errors reports each row's own at its position, and nothing else. */
  lemma PositionHeld(errors: seq<Detail>, p: nat)
    requires p < |errors|
    ensures Get(Positions(errors, 0), Index(p)) == if Empty(errors[p]) then None else Some(errors[p])
  {
    PositionsGet(errors, 0, Index(p));
  }

  lemma NoNameHeld(errors: seq<Detail>, name: string)
    ensures Get(Positions(errors, 0), Name(name)) == None
  {
    PositionsGet(errors, 0, Name(name));
  }

  lemma PositionsInRange(errors: seq<Detail>)
    ensures InRange(Positions(errors, 0), |errors|) && IsDict(Positions(errors, 0))
  {
    PositionsGet(errors, 0, NON_FIELD);
  }

  lemma RefusalKeysRows(listed: ListSerializer, rows: seq<Row>, indices: seq<int>, errors: Detail)
    requires listed.Valid() && |rows| == |indices| && Distinct(indices)
    requires errors == if listed.reportsMapping then Table(Positions(listed.Errors(rows), 0))
             else Lines(listed.Errors(rows))
    ensures InRange(Reported(errors), |indices|)
    ensures RowsKeyed(ByRow(errors, indices).entries, listed, rows, indices)
  {
    var each := listed.Errors(rows);
    listed.ErrorsOfRows(rows);
    PositionsInRange(each);
    assert Reported(errors) == Positions(each, 0);
    RowErrorsAreConserved(errors, indices);
    var detail := ByRow(errors, indices).entries;
    forall p | 0 <= p < |indices| ensures Get(detail, Index(indices[p])) == Earned(listed, rows[p]) {
      PositionHeld(each, p);
    }
    forall name ensures Get(detail, Name(name)) == None {
      NoNameHeld(each, name);
    }
  }

  /** The rows the kernel passed where it refused another the edge sent. The list is judged as sent: out of
      its bounds, by the bound alone, which is left for the edge to answer with; within them, no row is
      refused for the count that is left, and each refused row is keyed by the caller's index of it. */
  method RowsPastARefusal(listed: ListSerializer, edge: EdgeRows, passed: seq<int>) returns (out: Outcome)
    requires listed.Valid() && edge.sent.Some? && Distinct(passed)
    requires 0 < |edge.sent.value| && |passed| <= |edge.sent.value|
    requires forall p :: 0 <= p < |passed| ==> 0 <= passed[p] < |edge.sent.value|
    modifies listed`minLength, listed`allowEmpty, edge`rowErrors
    ensures var sent, rows := edge.sent.value, Picked(edge.sent.value, passed);
            var refusal := old(listed.LengthRefusal(|sent|));
            if refusal.Some? then
              edge.rowErrors == refusal && refusal.value.Table? && out == InvalidArguments(refusal.value.entries)
            else
              && edge.rowErrors == old(edge.rowErrors)
              && (out.Validated? <==> forall p :: 0 <= p < |passed| ==> listed.Judge(sent[passed[p]]).Valid?)
              && (out.Validated? ==> out.values == listed.Values(rows))
              && (!out.Validated? ==> out.InvalidArguments? && RowsKeyed(out.detail, listed, rows, passed))
  {
    var sent := edge.sent.value;
    var refusal := BoundRefusal(listed.maxLength, listed.minLength, |sent|);
    if refusal.Some? {
      edge.rowErrors := refusal;
      return InvalidArguments(refusal.value.entries);
    }
    var rows := Picked(sent, passed);
    listed.allowEmpty := true;
    listed.minLength := None;
    var read := listed.ToInternalValue(rows);
    listed.ErrorsOfRows(rows);
    listed.AllRowsValid(rows);
    if read.RefusedWith? {
      RefusalKeysRows(listed, rows, passed, read.errors);
      out := InvalidArguments(ByRow(read.errors, passed).entries);
    } else {
      out := Validated(read.values);
    }
  }

  function AllOf(indices: seq<int>): set<int> {
    set p | 0 <= p < |indices| :: indices[p]
  }

  lemma {:induction false} DistinctAreSoMany(indices: seq<int>)
    requires Distinct(indices)
    ensures |AllOf(indices)| == |indices|
  {
    if indices != [] {
      var init, last := indices[..|indices| - 1], indices[|indices| - 1];
      DistinctAreSoMany(init);
      assert last !in AllOf(init);
      assert forall p :: 0 <= p < |init| ==> init[p] == indices[p];
      assert AllOf(indices) == AllOf(init) + {last};
    }
  }

  lemma {:induction false} BelowAreNoMore(numbers: set<int>, count: nat)
    requires forall n :: n in numbers ==> 0 <= n < count
    ensures |numbers| <= count
  {
    if count > 0 {
      BelowAreNoMore(numbers - {count - 1}, count - 1);
      assert numbers - {count - 1} == numbers || numbers == (numbers - {count - 1}) + {count - 1};
    } else {
      assert numbers == {} by { assert forall n :: n !in numbers; }
    }
  }

  /** No more rows are passed than were sent, in whatever order. */
  lemma NoMoreThanSent(passed: seq<int>, count: nat)
    requires Distinct(passed) && forall p :: 0 <= p < |passed| ==> 0 <= passed[p] < count
    ensures |passed| <= count
    ensures passed != Range(count) ==> 0 < count
  {
    DistinctAreSoMany(passed);
    BelowAreNoMore(AllOf(passed), count);
    assert count == 0 ==> passed == Range(count);
  }

  /** The whole list the caller sent is bound: a live view's own body always, and any other where the kernel passed
      every row of it in order. */
  ghost predicate EveryRowPassed(edge: EdgeRows, passed: seq<int>) {
    && edge.sent.Some?
    && (|| edge.bodyRows
        || (|passed| == |edge.sent.value| && forall i :: 0 <= i < |passed| ==> passed[i] == i))
  }

  /** The rows of a bulk call validated once. `passed` are the indices the kernel passed, and `rows` the
      rows it passed, which are bound where the edge holds no body for this Validator. */
  method ValidatedMany(listed: ListSerializer, edge: EdgeRows, passed: seq<int>, rows: seq<Row>) returns (out: Outcome)
    requires listed.Valid() && Distinct(passed) && |rows| == |passed|
    requires edge.sent.Some? ==> forall p :: 0 <= p < |passed| ==> 0 <= passed[p] < |edge.sent.value|
    modifies listed`minLength, listed`allowEmpty, edge`rowErrors
    ensures var whole, every := edge.sent.Some? && edge.bodyRows, EveryRowPassed(edge, passed);
            var bound := if every then edge.sent.value else rows;
            var indices := if whole then Range(|edge.sent.value|) else passed;
            edge.sent.None? || every ==>
              match old(listed.IsValid(bound))
              case Accepted(values) =>
                && edge.rowErrors == old(edge.rowErrors)
                && out == if every && edge.besideRows != [] then UnexpectedArguments(edge.besideRows)
                          else Validated(values)
              case RefusedWith(errors) =>
                && edge.rowErrors == (if whole then Some(errors) else old(edge.rowErrors))
                && InRange(Reported(errors), |indices|)
                && out == InvalidArguments(ByRow(errors, indices).entries)
    ensures edge.sent.Some? && !EveryRowPassed(edge, passed) && old(listed.LengthRefusal(|edge.sent.value|)).Some? ==>
              edge.rowErrors == old(listed.LengthRefusal(|edge.sent.value|))
              && out == InvalidArguments(edge.rowErrors.value.entries)
    ensures edge.sent.Some? && !EveryRowPassed(edge, passed) && old(listed.LengthRefusal(|edge.sent.value|)).None?
            && !out.Validated? ==>
              out.InvalidArguments? && RowsKeyed(out.detail, listed, Picked(edge.sent.value, passed), passed)
  {
    var indices := edge.Indices(passed);
    assert edge.sent.Some? ==> (passed == Range(|edge.sent.value|) <==>
      |passed| == |edge.sent.value| && forall i :: 0 <= i < |passed| ==> passed[i] == i);
    if edge.sent.Some? && !edge.EveryRow(passed) {
      NoMoreThanSent(passed, |edge.sent.value|);
      out := RowsPastARefusal(listed, edge, passed);
      return;
    }
    var arguments := if edge.sent.Some? then edge.sent.value else rows;
    var judged := listed.IsValid(arguments);
    if judged.RefusedWith? {
      listed.ReportsInRange(arguments, judged.errors);
      if edge.Whole() {
        edge.rowErrors := Some(judged.errors);
      }
      return InvalidArguments(ByRow(judged.errors, indices).entries);
    }
    if edge.EveryRow(passed) && edge.besideRows != [] {
      return UnexpectedArguments(edge.besideRows);
    }
    out := Validated(judged.values);
  }

  lemma {:induction false} AllIndexedConcat(es: seq<Entry>, fs: seq<Entry>)
    requires AllIndexed(es) && forall name :: Get(fs, Name(name)) == None
    ensures AllIndexed(es + fs)
  {
    if es != [] {
      assert (es + fs)[1..] == es[1..] + fs;
      AllIndexedConcat(es[1..], fs);
    } else if fs != [] {
      assert es + fs == fs;
      assert Get(fs, fs[0].key).Some?;
      forall name ensures Get(fs[1..], Name(name)) == None {
        assert Get(fs, Name(name)) == None;
      }
      AllIndexedConcat([], fs[1..]);
      assert [] + fs[1..] == fs[1..];
    }
  }

  /** Off HTTP a bare list of rows is answered with an entry per row sent: the kernel's refusal of a row it
      did not pass, the list serializer's of one it did, and nothing for a valid one. */
  lemma BareAnswerHoldsEachRow(listed: ListSerializer, sent: seq<Row>, passed: seq<int>,
                               kernel: seq<Entry>, drf: seq<Entry>, manyArgument: string)
    requires forall p :: 0 <= p < |passed| ==> 0 <= passed[p] < |sent|
    requires RowsKeyed(drf, listed, Picked(sent, passed), passed)
    requires AllIndexed(kernel) && forall p :: 0 <= p < |passed| ==> Get(kernel, Index(passed[p])) == None
    ensures var answer := BareRowsError([Entry(Name(manyArgument), Table(kernel + drf))], manyArgument, |sent|, None);
            && answer.Some? && answer.value.Lines? && |answer.value.lines| == |sent|
            && forall i :: 0 <= i < |sent| ==> (answer.value.lines[i] ==
                 if i in passed then (if listed.Judge(sent[i]).Invalid? then listed.Judge(sent[i]).errors
                                      else NO_ERRORS)
                 else if Get(kernel, Index(i)).Some? then Get(kernel, Index(i)).value
                 else NO_ERRORS)
  {
    AllIndexedConcat(kernel, drf);
    var rows := LaidOut(kernel + drf, |sent|);
    forall i | 0 <= i < |sent|
      ensures rows[i] ==
        if i in passed then (if listed.Judge(sent[i]).Invalid? then listed.Judge(sent[i]).errors else NO_ERRORS)
        else if Get(kernel, Index(i)).Some? then Get(kernel, Index(i)).value
        else NO_ERRORS
    {
      GetOfConcat(kernel, drf, Index(i));
      if i in passed {
        var p :| 0 <= p < |passed| && passed[p] == i;
        assert Get(drf, Index(passed[p])) == Earned(listed, Picked(sent, passed)[p]);
      }
    }
  }
}
