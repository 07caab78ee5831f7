/**
  A bulk call's refusals: each row's errors keyed by the index the caller gave it,
  whichever rows reached the list serializer, and the list laid out again for a
  caller who sent one.
*/
module RowRefusals {
  import opened Prelude
  import opened Refusals

  /** `not detail`. */
  predicate Empty(d: Detail) {
    match d
    case Message(_, text) => text == ""
    case Lines(lines) => lines == []
    case Table(entries) => entries == []
    case _ => false
  }

  /** What a detail is empty of: a message's characters, a list's lines, a dict's keys. */
  lemma EmptyHoldsNothing(d: Detail)
    ensures d.Message? ==> (Empty(d) <==> |d.text| == 0)
    ensures d.Lines? ==> (Empty(d) <==> |d.lines| == 0)
    ensures d.Table? ==> (Empty(d) <==> |d.entries| == 0)
  {
  }

  const NO_ERRORS := Table([])

  /** A list of errors as the mapping of its invalid rows' positions, from `at` on. */
  function Positions(rows: seq<Detail>, at: nat): seq<Entry> {
    if rows == [] then []
    else
      var rest := Positions(rows[1..], at + 1);
      if Empty(rows[0]) then rest else [Entry(Index(at), rows[0])] + rest
  }

  function Reported(errors: Detail): seq<Entry>
    requires errors.Lines? || errors.Table?
  {
    if errors.Lines? then Positions(errors.lines, 0) else errors.entries
  }

  ghost predicate InRange(es: seq<Entry>, n: nat) {
    forall e :: e in es && e.key.Index? ==> 0 <= e.key.at < n
  }

  ghost predicate Distinct(indices: seq<int>) {
    forall i, j :: 0 <= i < j < |indices| ==> indices[i] != indices[j]
  }

  function Relabelled(es: seq<Entry>, indices: seq<int>): seq<Entry>
    requires InRange(es, |indices|)
  {
    if es == [] then []
    else
      var key := if es[0].key.Index? then Index(indices[es[0].key.at]) else es[0].key;
      [Entry(key, es[0].value)] + Relabelled(es[1..], indices)
  }

  /** A list serializer's errors, in either of DRF's shapes, keyed by the caller's own indices. */
  function ByRow(errors: Detail, indices: seq<int>): (r: Detail)
    requires errors.Lines? || errors.Table?
    requires InRange(Reported(errors), |indices|)
    ensures r.Table?
  {
    Table(Relabelled(Reported(errors), indices))
  }

  /** Each row that has errors is at its position, and nothing else is. */
  lemma {:induction false} PositionsGet(rows: seq<Detail>, at: nat, k: Key)
    ensures InRange(Positions(rows, at), at + |rows|)
    ensures Get(Positions(rows, at), k) ==
      if k.Index? && at <= k.at < at + |rows| && !Empty(rows[k.at - at]) then Some(rows[k.at - at]) else None
    ensures IsDict(Positions(rows, at))
  {
    if rows != [] {
      var rest := Positions(rows[1..], at + 1);
      PositionsGet(rows[1..], at + 1, k);
      PositionsAbove(rows[1..], at + 1, at);
      if !Empty(rows[0]) {
        assert Positions(rows, at) == [Entry(Index(at), rows[0])] + rest;
        assert Positions(rows, at)[1..] == rest;
      }
    }
  }

  lemma {:induction false} PositionsAbove(rows: seq<Detail>, at: nat, below: nat)
    requires below < at
    ensures !HasKey(Positions(rows, at), Index(below))
  {
    if rows != [] {
      PositionsAbove(rows[1..], at + 1, below);
      assert Empty(rows[0]) || Positions(rows, at)[1..] == Positions(rows[1..], at + 1);
    }
  }

  /** Where `q` came from: the position of that index, or the key itself. */
  ghost predicate LabelledFrom(k: Key, q: Key, indices: seq<int>) {
    if k.Index? then 0 <= k.at < |indices| && q == Index(indices[k.at]) else q == k
  }

  lemma {:induction false} RelabelledGet(es: seq<Entry>, indices: seq<int>, k: Key, q: Key)
    requires InRange(es, |indices|) && Distinct(indices) && LabelledFrom(k, q, indices)
    ensures Get(Relabelled(es, indices), q) == Get(es, k)
  {
    if es != [] && es[0].key != k {
      RelabelledGet(es[1..], indices, k, q);
    }
  }

  lemma {:induction false} RelabelledHas(es: seq<Entry>, indices: seq<int>, q: Key)
    requires InRange(es, |indices|)
    ensures |Relabelled(es, indices)| == |es|
    ensures HasKey(Relabelled(es, indices), q) ==> (if q.Index? then q.at in indices else HasKey(es, q))
  {
    if es != [] {
      assert es[0] in es;
      RelabelledHas(es[1..], indices, q);
    }
  }

  lemma {:induction false} RelabelledIsDict(es: seq<Entry>, indices: seq<int>)
    requires IsDict(es) && InRange(es, |indices|) && Distinct(indices)
    ensures IsDict(Relabelled(es, indices))
  {
    if es != [] {
      assert es[0] in es;
      RelabelledIsDict(es[1..], indices);
      var key := es[0].key;
      var q := Relabelled(es, indices)[0].key;
      RelabelledGet(es[1..], indices, key, q);
      GetNeedsKey(es[1..], key);
      GetNeedsKey(Relabelled(es[1..], indices), q);
    }
  }

  /** Nothing is merged, moved to another row or lost: a dict of as many errors, each row's under the
      caller's index of it, the list's own under its key, and nothing under any other index. */
  lemma RowErrorsAreConserved(errors: Detail, indices: seq<int>)
    requires errors.Lines? || (errors.Table? && IsDict(errors.entries))
    requires InRange(Reported(errors), |indices|) && Distinct(indices)
    ensures IsDict(ByRow(errors, indices).entries) && |ByRow(errors, indices).entries| == |Reported(errors)|
    ensures forall p :: 0 <= p < |indices| ==>
      Get(ByRow(errors, indices).entries, Index(indices[p])) == Get(Reported(errors), Index(p))
    ensures forall name :: Get(ByRow(errors, indices).entries, Name(name)) == Get(Reported(errors), Name(name))
    ensures forall i :: i !in indices ==> Get(ByRow(errors, indices).entries, Index(i)) == None
  {
    var es := Reported(errors);
    if errors.Lines? {
      PositionsGet(errors.lines, 0, NON_FIELD);
    }
    RelabelledIsDict(es, indices);
    RelabelledHas(es, indices, NON_FIELD);
    forall p | 0 <= p < |indices| ensures Get(ByRow(errors, indices).entries, Index(indices[p])) == Get(es, Index(p)) {
      RelabelledGet(es, indices, Index(p), Index(indices[p]));
    }
    forall name ensures Get(ByRow(errors, indices).entries, Name(name)) == Get(es, Name(name)) {
      RelabelledGet(es, indices, Name(name), Name(name));
    }
    forall i | i !in indices ensures Get(ByRow(errors, indices).entries, Index(i)) == None {
      RelabelledHas(es, indices, Index(i));
      GetNeedsKey(Relabelled(es, indices), Index(i));
    }
  }

  /** The two shapes of one refusal: what a list holds at each row is what a mapping holds under its position. */
  ghost predicate OneRefusal(rows: seq<Detail>, mapping: seq<Entry>) {
    && IsDict(mapping) && InRange(mapping, |rows|)
    && (forall p :: 0 <= p < |rows| ==> Get(mapping, Index(p)) == if Empty(rows[p]) then None else Some(rows[p]))
    && (forall name :: Get(mapping, Name(name)) == None)
  }

  lemma ReportedAlike(rows: seq<Detail>, mapping: seq<Entry>, k: Key)
    requires OneRefusal(rows, mapping) && (k.Index? ==> 0 <= k.at < |rows|)
    ensures Get(Reported(Lines(rows)), k) == Get(Reported(Table(mapping)), k)
  {
    PositionsGet(rows, 0, k);
  }

  lemma ShapesAgreeAtIndex(rows: seq<Detail>, mapping: seq<Entry>, indices: seq<int>, i: int)
    requires OneRefusal(rows, mapping) && |rows| == |indices| && Distinct(indices)
    requires InRange(Reported(Lines(rows)), |indices|)
    ensures Get(ByRow(Lines(rows), indices).entries, Index(i)) == Get(ByRow(Table(mapping), indices).entries, Index(i))
  {
    RowErrorsAreConserved(Lines(rows), indices);
    RowErrorsAreConserved(Table(mapping), indices);
    if i in indices {
      var p :| 0 <= p < |indices| && indices[p] == i;
      ReportedAlike(rows, mapping, Index(p));
    }
  }

  /** DRF's two shapes of one refusal - a list with an entry per row, a mapping of the invalid rows'
      positions - are read as one. */
  lemma ShapesAgree(rows: seq<Detail>, mapping: seq<Entry>, indices: seq<int>, k: Key)
    requires OneRefusal(rows, mapping) && |rows| == |indices| && Distinct(indices)
    ensures InRange(Reported(Lines(rows)), |indices|)
    ensures Get(ByRow(Lines(rows), indices).entries, k) == Get(ByRow(Table(mapping), indices).entries, k)
  {
    PositionsGet(rows, 0, k);
    match k
    case Index(i) => ShapesAgreeAtIndex(rows, mapping, indices, i);
    case Name(name) =>
      ReportedAlike(rows, mapping, k);
      RowErrorsAreConserved(Lines(rows), indices);
      RowErrorsAreConserved(Table(mapping), indices);
  }

  // --- a list body's answer

  /** `[rows.get(index, {}) for index in range(count)]`. */
  function LaidOut(rows: seq<Entry>, count: nat): (r: seq<Detail>)
    ensures |r| == count
    ensures forall i :: 0 <= i < count ==> r[i] == if Get(rows, Index(i)).Some? then Get(rows, Index(i)).value
            else NO_ERRORS
  {
    seq(count, i requires 0 <= i < count =>
      if Get(rows, Index(i)).Some? then Get(rows, Index(i)).value else NO_ERRORS)
  }

  predicate AllIndexed(es: seq<Entry>) {
    es != [] ==> es[0].key.Index? && AllIndexed(es[1..])
  }

  /** The refusal of a call whose rows were its whole body, in the shape a list body is refused in, or
      `None` to leave it keyed. */
  function BareRowsError(detail: seq<Entry>, manyArgument: string, count: nat,
                         rowErrors: Option<Detail>): Option<Detail> {
    if !(detail != [] && forall e :: e in detail ==> e.key == Name(manyArgument)) then None
    else if rowErrors.Some? then rowErrors
    else
      var rows := detail[0].value;
      if !rows.Table? then Some(Table([Entry(NON_FIELD, rows)]))
      else if AllIndexed(rows.entries) then Some(Lines(LaidOut(rows.entries, count)))
      else Some(rows)
  }

  /** How a refusal of a list body is answered: keyed as it is where anything beside the rows is refused; and else as
      the list serializer refused the whole body, where it did; the list's own refusal under `non_field_errors`;
      an entry for each row sent where rows alone are refused; and otherwise as the rows' refusal is. */
  lemma BareAnswerExactly(detail: seq<Entry>, manyArgument: string, count: nat, rowErrors: Option<Detail>)
    ensures var answer := BareRowsError(detail, manyArgument, count, rowErrors);
            if detail == [] || exists e :: e in detail && e.key != Name(manyArgument) then answer == None
            else
              && answer.Some?
              && (rowErrors.Some? ==> answer == rowErrors)
              && (rowErrors.None? ==>
                    var rows := detail[0].value;
                    && (!rows.Table? ==> answer == Some(Table([Entry(NON_FIELD, rows)])))
                    && (rows.Table? && (forall e :: e in rows.entries ==> e.key.Index?) ==>
                          answer == Some(Lines(LaidOut(rows.entries, count))))
                    && (rows.Table? && (exists e :: e in rows.entries && !e.key.Index?) ==> answer == Some(rows)))
  {
    if detail != [] && detail[0].value.Table? {
      AllIndexedExactly(detail[0].value.entries);
    }
  }

  lemma {:induction false} AllIndexedExactly(es: seq<Entry>)
    ensures AllIndexed(es) <==> forall e :: e in es ==> e.key.Index?
  {
    if es != [] {
      AllIndexedExactly(es[1..]);
      assert es == [es[0]] + es[1..];
    }
  }

  function Range(n: nat): (r: seq<int>)
    ensures |r| == n && forall i :: 0 <= i < n ==> r[i] == i
  {
    seq(n, i => i)
  }

  /** Laying rows out as a list and reading it back by row is the identity: on rows that are in the list
      and hold an error. */
  lemma LayingOutRoundTrips(rows: seq<Entry>, count: nat, k: Key)
    requires IsDict(rows) && AllIndexed(rows) && InRange(rows, count)
    requires forall e :: e in rows ==> !Empty(e.value)
    ensures InRange(Reported(Lines(LaidOut(rows, count))), count)
    ensures Get(ByRow(Lines(LaidOut(rows, count)), Range(count)).entries, k) == Get(rows, k)
  {
    var laid := LaidOut(rows, count);
    PositionsGet(laid, 0, k);
    RowErrorsAreConserved(Lines(laid), Range(count));
    GetNeedsKey(rows, k);
    if k.Name? {
      IndexedHasNoName(rows, k);
    }
    if k.Index? && 0 <= k.at < count {
      assert Range(count)[k.at] == k.at;
      PositionsGet(laid, 0, Index(k.at));
      if Get(rows, k).Some? {
        assert !Empty(Get(rows, k).value);
      }
    } else {
      assert Get(rows, k) == None;
      if k.Index? {
        assert k.at !in Range(count);
      }
    }
  }

  lemma {:induction false} IndexedHasNoName(rows: seq<Entry>, k: Key)
    requires AllIndexed(rows) && k.Name?
    ensures Get(rows, k) == None
  {
    if rows != [] {
      IndexedHasNoName(rows[1..], k);
    }
  }
}
