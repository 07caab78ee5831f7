/**
  The kernel's "Unknown argument." refusals answered in this package's one
  message per level, every other refusal kept where it is.
*/
module Rewording {
  import opened Prelude
  import opened Refusals

  /** The compiled parameters: each declared name, with its rows' parameters where it is an array of objects. */
  datatype Parameters = Parameters(declared: map<string, Option<Parameters>>)

  predicate Declares(ps: Parameters, k: Key) {
    k.Name? && k.text in ps.declared
  }

  function RowsOf(ps: Parameters, k: Key): Option<Parameters> {
    if Declares(ps, k) then ps.declared[k.text] else None
  }

  /** Whether every error of `errors` is coded unknown, read by iterating it: an empty one vacuously. */
  predicate OnlyUnknown(errors: Detail) {
    match errors
    case Lines(lines) => forall line :: line in lines ==> line.Message? && line.code == "unknown"
    case Table(entries) => entries == []
    case Message(_, text) => text == ""
    case Unexpected(_) => false
    case Bare(_) => false
  }

  predicate IsUnknown(ps: Parameters, e: Entry) {
    !Declares(ps, e.key) && e.key != NON_FIELD && OnlyUnknown(e.value)
  }

  /** Whether a key's errors are only unknown is asked of what iterating them yields: each a message so coded. */
  lemma OnlyUnknownExactly(errors: Detail)
    requires !errors.Unexpected? && !errors.Bare?
    ensures OnlyUnknown(errors) <==>
      forall item :: item in Spread(Some(errors)) ==> item.Message? && item.code == "unknown"
  {
    var items := Spread(Some(errors));
    if items != [] {
      assert items[0] in items;
    }
  }

  // --- the names of the message, sorted

  predicate Before(a: string, b: string) {
    a == [] || (b != [] && (a[0] < b[0] || (a[0] == b[0] && Before(a[1..], b[1..]))))
  }

  lemma {:induction false} BeforeIsTotal(a: string, b: string)
    ensures Before(a, b) || Before(b, a)
  {
    if a != [] && b != [] && a[0] == b[0] {
      BeforeIsTotal(a[1..], b[1..]);
    }
  }

  /** Alike up to `k`, where `a` ends or has the lesser character. */
  ghost predicate Precedes(a: string, b: string, k: nat) {
    && k <= |a| && k <= |b| && (forall i :: 0 <= i < k ==> a[i] == b[i])
    && (k == |a| || (k < |b| && a[k] < b[k]))
  }

  /** The order is by the first character that differs, a name before any it begins. */
  lemma BeforeIsLexicographic(a: string, b: string)
    ensures Before(a, b) <==> exists k :: Precedes(a, b, k)
  {
    if Before(a, b) {
      var k := PrecedesAt(a, b);
    }
    if k :| Precedes(a, b, k) {
      PrecedingIsBefore(a, b, k);
    }
  }

  lemma {:induction false} PrecedesAt(a: string, b: string) returns (k: nat)
    requires Before(a, b)
    ensures Precedes(a, b, k)
  {
    k := 0;
    if a != [] && a[0] == b[0] {
      k := PrecedesAt(a[1..], b[1..]);
      k := k + 1;
    }
  }

  lemma {:induction false} PrecedingIsBefore(a: string, b: string, k: nat)
    requires Precedes(a, b, k)
    ensures Before(a, b)
  {
    if k > 0 {
      PrecedingIsBefore(a[1..], b[1..], k - 1);
    }
  }

  function Insert(name: string, sorted: seq<string>): (r: seq<string>)
  {
    if sorted == [] || Before(name, sorted[0]) then [name] + sorted
    else [sorted[0]] + Insert(name, sorted[1..])
  }

  function Sort(names: seq<string>): (r: seq<string>)
  {
    if names == [] then [] else Insert(names[0], Sort(names[1..]))
  }

  predicate IsSorted(names: seq<string>) {
    |names| > 1 ==> Before(names[0], names[1]) && IsSorted(names[1..])
  }

  lemma {:induction false} InsertSorts(name: string, sorted: seq<string>)
    requires IsSorted(sorted)
    ensures IsSorted(Insert(name, sorted))
    ensures Insert(name, sorted)[0] == name || (sorted != [] && Insert(name, sorted)[0] == sorted[0])
  {
    if sorted != [] && !Before(name, sorted[0]) {
      BeforeIsTotal(name, sorted[0]);
      InsertSorts(name, sorted[1..]);
    }
  }

  lemma {:induction false} InsertAddsOne(name: string, sorted: seq<string>)
    ensures multiset(Insert(name, sorted)) == multiset(sorted) + multiset{name}
  {
    if sorted != [] && !Before(name, sorted[0]) {
      InsertAddsOne(name, sorted[1..]);
      assert sorted == [sorted[0]] + sorted[1..];
    }
  }

  /** The message names every unknown key once, in order. */
  lemma {:induction false} SortSorts(names: seq<string>)
    ensures IsSorted(Sort(names)) && multiset(Sort(names)) == multiset(names)
  {
    if names != [] {
      SortSorts(names[1..]);
      InsertSorts(names[0], Sort(names[1..]));
      InsertAddsOne(names[0], Sort(names[1..]));
      assert names == [names[0]] + names[1..];
    }
  }

  function Digits(n: nat): string {
    if n < 10 then ["0123456789"[n]] else Digits(n / 10) + ["0123456789"[n % 10]]
  }

  /** `str(key)`. */
  function KeyText(k: Key): string {
    match k
    case Name(text) => text
    case Index(at) => if at < 0 then "-" + Digits(-at) else Digits(at)
  }

  function DigitOf(c: char): int { c as int - '0' as int }

  /** The number a run of digits says. */
  function Said(digits: string): int {
    if digits == [] then 0 else 10 * Said(digits[..|digits| - 1]) + DigitOf(digits[|digits| - 1])
  }

  lemma {:induction false} DigitsSayTheirNumber(n: nat)
    ensures Said(Digits(n)) == n && Digits(n) != [] && forall c :: c in Digits(n) ==> '0' <= c <= '9'
  {
    assert forall i :: 0 <= i < 10 ==> DigitOf("0123456789"[i]) == i;
    if n >= 10 {
      DigitsSayTheirNumber(n / 10);
      assert Digits(n)[..|Digits(n)| - 1] == Digits(n / 10);
    } else {
      assert Digits(n)[..0] == [];
    }
  }

  /** A row's index is named by its number, read back. */
  lemma KeyTextSaysTheIndex(at: int)
    ensures var text := KeyText(Index(at));
            && text != []
            && (text[0] == '-' <==> at < 0)
            && (if at < 0 then -Said(text[1..]) else Said(text)) == at
  {
    DigitsSayTheirNumber(if at < 0 then -at else at);
    var digits := Digits(if at < 0 then -at else at);
    assert digits[0] in digits;
    if at < 0 {
      assert KeyText(Index(at))[1..] == digits;
    }
  }

  // --- one level

  function UnknownNames(level: seq<Entry>, ps: Parameters): seq<string> {
    if level == [] then []
    else (if IsUnknown(ps, level[0]) then [KeyText(level[0].key)] else []) + UnknownNames(level[1..], ps)
  }

  /** What a list display spreads out of a detail: a list's lines, a dict's keys, a message's characters. */
  function Spread(d: Option<Detail>): seq<Detail> {
    match d
    case None => []
    case Some(Lines(lines)) => lines
    case Some(Table(entries)) => seq(|entries|, i requires 0 <= i < |entries| => Bare(entries[i].key))
    case Some(Message(_, text)) => seq(|text|, i requires 0 <= i < |text| => Bare(Name([text[i]])))
    case Some(_) => []
  }

  function Announce(kept: seq<Entry>, unknown: seq<string>): seq<Entry> {
    if unknown == [] then kept
    else Put(kept, NON_FIELD, Lines(Spread(Get(kept, NON_FIELD)) + [Unexpected(Sort(unknown))]))
  }

  function Reword(level: seq<Entry>, ps: Parameters): seq<Entry>
    decreases level, 1
  {
    Announce(Kept(level, ps), UnknownNames(level, ps))
  }

  function Kept(level: seq<Entry>, ps: Parameters): seq<Entry>
    decreases level, 0
  {
    if level == [] then []
    else
      var rest := Kept(level[1..], ps);
      if IsUnknown(ps, level[0]) then rest else [KeptEntry(level[0], ps)] + rest
  }

  /** A kept key's errors, each row of a declared array of objects reworded against the rows' parameters. */
  function KeptEntry(e: Entry, ps: Parameters): (r: Entry)
    ensures r.key == e.key
    decreases e
  {
    if RowsOf(ps, e.key).Some? && e.value.Table? then Entry(e.key, RewordRows(e.value, RowsOf(ps, e.key).value))
    else e
  }

  function RewordRows(errors: Detail, rows: Parameters): (r: Detail)
    requires errors.Table?
    ensures r.Table?
    decreases errors
  {
    Table(RowEntries(errors.entries, rows))
  }

  function RowEntries(es: seq<Entry>, rows: Parameters): seq<Entry>
    decreases es
  {
    if es == [] then [] else [RowEntry(es[0], rows)] + RowEntries(es[1..], rows)
  }

  function RowEntry(e: Entry, rows: Parameters): (r: Entry)
    ensures r.key == e.key
    decreases e
  {
    if e.value.Table? then Entry(e.key, Table(Reword(e.value.entries, rows))) else e
  }

  /** One more key adds its name where it is unknown, and its errors where it is not. */
  lemma {:induction false} OneMoreKey(level: seq<Entry>, e: Entry, ps: Parameters)
    ensures UnknownNames(level + [e], ps) == UnknownNames(level, ps)
            + (if IsUnknown(ps, e) then [KeyText(e.key)] else [])
    ensures Kept(level + [e], ps) == Kept(level, ps) + (if IsUnknown(ps, e) then [] else [KeptEntry(e, ps)])
  {
    if level == [] {
      assert level + [e] == [e] && [e][1..] == [];
    } else {
      assert (level + [e])[1..] == level[1..] + [e];
      OneMoreKey(level[1..], e, ps);
    }
  }

  // --- as it runs: the unknown keys listed, then a dict filled in a loop

  method RewordUnknown(detail: seq<Entry>, ps: Parameters) returns (reworded: seq<Entry>)
    ensures reworded == Reword(detail, ps)
    decreases detail
  {
    var unknown: seq<string> := [];
    reworded := [];
    for i := 0 to |detail|
      invariant unknown == UnknownNames(detail[..i], ps) && reworded == Kept(detail[..i], ps)
    {
      var e := detail[i];
      assert detail[..i + 1] == detail[..i] + [e];
      OneMoreKey(detail[..i], e, ps);
      if IsUnknown(ps, e) {
        unknown := unknown + [KeyText(e.key)];
      } else {
        var kept := RewordEntry(e, ps);
        reworded := reworded + [kept];
      }
    }
    assert detail[..|detail|] == detail;
    if unknown != [] {
      reworded := Put(reworded, NON_FIELD, Lines(Spread(Get(reworded, NON_FIELD)) + [Unexpected(Sort(unknown))]));
    }
  }

  method RewordEntry(e: Entry, ps: Parameters) returns (kept: Entry)
    ensures kept == KeptEntry(e, ps)
    decreases e
  {
    var rows := RowsOf(ps, e.key);
    if rows.None? || !e.value.Table? {
      return e;
    }
    var entries := e.value.entries;
    var out: seq<Entry> := [];
    for i := 0 to |entries|
      invariant out + RowEntries(entries[i..], rows.value) == RowEntries(entries, rows.value)
    {
      assert entries[i..][1..] == entries[i + 1..];
      assert entries[i] < e.value;
      var row := RewordRow(entries[i], rows.value);
      out := out + [row];
    }
    kept := Entry(e.key, Table(out));
  }

  method RewordRow(row: Entry, rows: Parameters) returns (reworded: Entry)
    ensures reworded == RowEntry(row, rows)
    decreases row
  {
    if !row.value.Table? {
      return row;
    }
    var entries := RewordUnknown(row.value.entries, rows);
    reworded := Entry(row.key, Table(entries));
  }

  // --- rewording is conservative

  lemma {:induction false} NamesListed(level: seq<Entry>, ps: Parameters)
    ensures UnknownNames(level, ps) == [] <==> forall e :: e in level ==> !IsUnknown(ps, e)
  {
    if level != [] {
      NamesListed(level[1..], ps);
      assert level == [level[0]] + level[1..];
    }
  }

  lemma {:induction false} KeptGet(level: seq<Entry>, ps: Parameters, k: Key)
    requires IsDict(level)
    ensures Get(Kept(level, ps), k) ==
      match Get(level, k)
      case None => None
      case Some(v) => if IsUnknown(ps, Entry(k, v)) then None else Some(KeptEntry(Entry(k, v), ps).value)
  {
    if level != [] {
      KeptGet(level[1..], ps, k);
      if level[0].key == k {
        GetNeedsKey(level[1..], k);
      }
    }
  }

  /** One level, key by key: an undeclared key refused only as unknown is gone, `non_field_errors` gains
      one sorted message where there is one, and every other key keeps its errors, its rows reworded. */
  lemma LevelReworded(level: seq<Entry>, ps: Parameters, k: Key)
    requires IsDict(level)
    ensures Get(Reword(level, ps), k) ==
      var unknown := UnknownNames(level, ps);
      if k == NON_FIELD && unknown != [] then
        Some(Lines(Spread(Get(Kept(level, ps), NON_FIELD)) + [Unexpected(Sort(unknown))]))
      else
        match Get(level, k)
        case None => None
        case Some(v) =>
          if !(k.Name? && k.text in ps.declared) && k != NON_FIELD && OnlyUnknown(v) then None
          else Some(KeptEntry(Entry(k, v), ps).value)
  {
    KeptGet(level, ps, k);
    GetOfPut(Kept(level, ps), NON_FIELD,
             Lines(Spread(Get(Kept(level, ps), NON_FIELD)) + [Unexpected(Sort(UnknownNames(level, ps)))]), k);
  }

  lemma {:induction false} RowGet(es: seq<Entry>, rows: Parameters, k: Key)
    ensures Get(RowEntries(es, rows), k) ==
      match Get(es, k) case None => None case Some(v) => Some(RowEntry(Entry(k, v), rows).value)
  {
    if es != [] {
      RowGet(es[1..], rows, k);
    }
  }

  /** Every table of a detail is a dict. */
  ghost predicate Dicts(d: Detail)
    decreases d
  {
    d.Table? ==> IsDict(d.entries) && forall e :: e in d.entries ==> Dicts(e.value)
  }

  /** Whether `path` names, at the level it starts from or at a row's, a key refused only as unknown. */
  predicate ThroughUnknown(level: seq<Entry>, ps: Parameters, path: seq<Key>)
    decreases |path|
  {
    && path != []
    && Get(level, path[0]).Some?
    && var v := Get(level, path[0]).value;
       || IsUnknown(ps, Entry(path[0], v))
       || (|path| > 2 && RowsOf(ps, path[0]).Some? && v.Table?
           && var row := Get(v.entries, path[1]);
              row.Some? && row.value.Table? && ThroughUnknown(row.value.entries, RowsOf(ps, path[0]).value, path[2..]))
  }

  /** Whether `path` goes through `non_field_errors`, the one key a level may add to. */
  predicate ThroughNonField(path: seq<Key>) {
    NON_FIELD in path
  }

  /** At every path not through `non_field_errors`, the reworded refusal holds exactly the errors it was
      given, less those under an undeclared key refused only as unknown, at the top or in a row. */
  lemma {:induction false} RewordingKeepsErrors(level: seq<Entry>, ps: Parameters, path: seq<Key>, errors: Detail)
    requires Dicts(Table(level)) && !ThroughNonField(path) && !errors.Table?
    ensures At(Table(Reword(level, ps)), path) == Some(errors)
       <==> At(Table(level), path) == Some(errors) && !ThroughUnknown(level, ps, path)
    decreases |path|
  {
    if path != [] {
      var k := path[0];
      LevelReworded(level, ps, k);
      GetNeedsKey(level, k);
      if Get(level, k).Some? && !IsUnknown(ps, Entry(k, Get(level, k).value)) {
        var v := Get(level, k).value;
        assert Dicts(v);
        if RowsOf(ps, k).Some? && v.Table? && |path| > 1 {
          var rows := RowsOf(ps, k).value;
          RowGet(v.entries, rows, path[1]);
          GetNeedsKey(v.entries, path[1]);
          assert path[1..][1..] == path[2..];
          assert At(KeptEntry(Entry(k, v), ps).value, path[1..])
              == match Get(RowEntries(v.entries, rows), path[1]) case None => None case Some(r) => At(r, path[2..]);
          if Get(v.entries, path[1]).Some? && Get(v.entries, path[1]).value.Table? {
            var row := Get(v.entries, path[1]).value;
            assert Dicts(row);
            assert path[1] in path && forall p :: p in path[2..] ==> p in path;
            RewordingKeepsErrors(row.entries, rows, path[2..], errors);
          }
        }
      }
    }
  }

  /** The messages of a detail, in order, at any depth. */
  function MessagesIn(d: Detail): seq<Detail>
    decreases d
  {
    match d
    case Message(_, _) => [d]
    case Unexpected(_) => [d]
    case Bare(_) => []
    case Lines(lines) => MessagesInLines(lines)
    case Table(entries) => MessagesInEntries(entries)
  }

  function MessagesInLines(lines: seq<Detail>): seq<Detail>
    decreases lines
  {
    if lines == [] then [] else MessagesIn(lines[0]) + MessagesInLines(lines[1..])
  }

  function MessagesInEntries(es: seq<Entry>): seq<Detail>
    decreases es
  {
    if es == [] then [] else MessagesInEntry(es[0]) + MessagesInEntries(es[1..])
  }

  function MessagesInEntry(e: Entry): seq<Detail>
    decreases e
  {
    MessagesIn(e.value)
  }

  function Held(d: Option<Detail>): seq<Detail> {
    if d.Some? then MessagesIn(d.value) else []
  }

  lemma {:induction false} MessagesConcat(xs: seq<Detail>, ys: seq<Detail>)
    ensures MessagesInLines(xs + ys) == MessagesInLines(xs) + MessagesInLines(ys)
  {
    if xs == [] {
      assert xs + ys == ys;
    } else {
      assert (xs + ys)[1..] == xs[1..] + ys;
      MessagesConcat(xs[1..], ys);
    }
  }

  lemma {:induction false} BaresHoldNoMessage(lines: seq<Detail>)
    requires forall line :: line in lines ==> line.Bare?
    ensures MessagesInLines(lines) == []
  {
    if lines != [] {
      assert lines[0].Bare? && forall line :: line in lines[1..] ==> line in lines;
      BaresHoldNoMessage(lines[1..]);
      assert MessagesIn(lines[0]) == [];
    }
  }

  /** A list's messages are spread whole; anything else's are lost. */
  lemma SpreadMessages(d: Option<Detail>, told: Detail)
    requires told.Unexpected?
    ensures MessagesInLines(Spread(d) + [told]) == (if d.Some? && d.value.Lines? then Held(d) else []) + [told]
  {
    MessagesConcat(Spread(d), [told]);
    assert [told][1..] == [];
    if !(d.Some? && d.value.Lines?) {
      BaresHoldNoMessage(Spread(d));
    }
  }

  lemma KeptNonField(level: seq<Entry>, ps: Parameters)
    requires IsDict(level)
    ensures var was, kept := Get(level, NON_FIELD), Get(Kept(level, ps), NON_FIELD);
            && (was.None? <==> kept.None?)
            && (was.Some? ==> (was.value.Lines? <==> kept.value.Lines?) && (was.value.Lines? ==> kept == was))
  {
    KeptGet(level, ps, NON_FIELD);
  }

  /** Where a level has keys refused as unknown, its `non_field_errors` keeps every message it held, in
      order, before one naming those keys, sorted: exactly where it is absent, a list, or holds none. A
      mapping or a lone message there is spread to its keys or characters, and its messages are lost. */
  lemma NonFieldKept(level: seq<Entry>, ps: Parameters)
    requires IsDict(level) && UnknownNames(level, ps) != []
    ensures var was := Get(level, NON_FIELD);
            var told := Unexpected(Sort(UnknownNames(level, ps)));
            (Held(Get(Reword(level, ps), NON_FIELD)) == Held(was) + [told])
              <==> (was.None? || was.value.Lines? || Held(was) == [])
  {
    LevelReworded(level, ps, NON_FIELD);
    KeptNonField(level, ps);
    SpreadMessages(Get(Kept(level, ps), NON_FIELD), Unexpected(Sort(UnknownNames(level, ps))));
  }

  // --- a row's own level

  /** A path of keys leads from a level to a row's: a declared array of objects, then a row of it that is one,
      and so on down. A level's own `non_field_errors` leads on only where nothing is announced under it. */
  ghost predicate LeadsToRow(level: seq<Entry>, ps: Parameters, path: seq<Key>, row: seq<Entry>, rows: Parameters)
    decreases |path|
  {
    if path == [] then row == level && rows == ps
    else
      && |path| > 1 && path[0].Name? && path[0].text in ps.declared && ps.declared[path[0].text].Some?
      && (path[0] == NON_FIELD ==> UnknownNames(level, ps) == [])
      && var field := Get(level, path[0]);
         && field.Some? && field.value.Table?
         && var inner := Get(field.value.entries, path[1]);
            inner.Some? && inner.value.Table?
            && LeadsToRow(inner.value.entries, ps.declared[path[0].text].value, path[2..], row, rows)
  }

  /** Every row a path leads to is reworded as the top level is. */
  lemma {:induction false} RowsAreReworded(level: seq<Entry>, ps: Parameters, path: seq<Key>, row: seq<Entry>,
                                           rows: Parameters)
    requires Dicts(Table(level)) && LeadsToRow(level, ps, path, row, rows)
    ensures At(Table(Reword(level, ps)), path) == Some(Table(Reword(row, rows))) && Dicts(Table(row))
    decreases |path|
  {
    if path != [] {
      var k, v, inside := path[0], Get(level, path[0]).value, RowsOf(ps, path[0]).value;
      LevelReworded(level, ps, k);
      GetNeedsKey(level, k);
      GetNeedsKey(v.entries, path[1]);
      RowGet(v.entries, inside, path[1]);
      var inner := Get(v.entries, path[1]).value;
      assert Dicts(v) && Dicts(inner);
      RowsAreReworded(inner.entries, inside, path[2..], row, rows);
      assert path[1..][1..] == path[2..];
      assert Get(Reword(level, ps), k) == Some(RewordRows(v, inside));
    }
  }

  lemma {:induction false} AtAppends(d: Detail, path: seq<Key>, k: Key, inner: seq<Entry>)
    requires At(d, path) == Some(Table(inner))
    ensures At(d, path + [k]) == Get(inner, k)
    decreases |path|
  {
    if path == [] {
      assert path + [k] == [k] && [k][1..] == [];
    } else {
      assert (path + [k])[0] == path[0] && (path + [k])[1..] == path[1..] + [k];
      AtAppends(Get(d.entries, path[0]).value, path[1..], k, inner);
    }
  }

  /** So in every row as at the top: the `non_field_errors` of a row with keys refused as unknown keeps its
      messages, in order, before one naming those keys, exactly where it is absent, a list, or holds none. */
  lemma NonFieldKeptInRows(level: seq<Entry>, ps: Parameters, path: seq<Key>, row: seq<Entry>, rows: Parameters)
    requires Dicts(Table(level)) && LeadsToRow(level, ps, path, row, rows) && UnknownNames(row, rows) != []
    ensures var was := Get(row, NON_FIELD);
            var told := Unexpected(Sort(UnknownNames(row, rows)));
            (Held(At(Table(Reword(level, ps)), path + [NON_FIELD])) == Held(was) + [told])
              <==> (was.None? || was.value.Lines? || Held(was) == [])
  {
    RowsAreReworded(level, ps, path, row, rows);
    AtAppends(Table(Reword(level, ps)), path, NON_FIELD, Reword(row, rows));
    NonFieldKept(row, rows);
  }

  const REFUSED := Message("invalid", "Refused.")

  /** `non_field_errors` as a mapping, beside a key no parameter declares. */
  const MAPPED_BESIDE_UNKNOWN := [
    Entry(NON_FIELD, Table([Entry(Name("x"), Lines([REFUSED]))])),
    Entry(Name("u"), Lines([Message("unknown", "Unknown argument.")]))]

  lemma KeptOfTwo(known: Entry, unknown: Entry, ps: Parameters)
    requires !IsUnknown(ps, known) && IsUnknown(ps, unknown) && unknown.key.Name?
    ensures Kept([known, unknown], ps) == [KeptEntry(known, ps)]
            && UnknownNames([known, unknown], ps) == [unknown.key.text]
  {
    var level := [known, unknown];
    assert level[1..] == [unknown] && [unknown][1..] == [];
    assert UnknownNames([unknown], ps) == [KeyText(unknown.key)] + UnknownNames([], ps);
    assert Kept([unknown], ps) == Kept([], ps) == [] && UnknownNames([unknown], ps) == [unknown.key.text];
  }

  lemma MessagesOfOne(key: Key, message: Detail)
    requires message.Message?
    ensures MessagesIn(Table([Entry(key, Lines([message]))])) == [message]
  {
    var e := Entry(key, Lines([message]));
    assert [message][1..] == [] && [e][1..] == [];
    assert MessagesInLines([message]) == [message];
    assert MessagesInEntries([e]) == MessagesInEntry(e) + MessagesInEntries([]);
  }

  /** There the message under `non_field_errors` is lost: only its key is left, beside the one naming `u`. */
  lemma AMappedMessageIsLost()
    ensures IsDict(MAPPED_BESIDE_UNKNOWN)
    ensures Held(Get(MAPPED_BESIDE_UNKNOWN, NON_FIELD)) == [REFUSED]
    ensures Reword(MAPPED_BESIDE_UNKNOWN, Parameters(map[]))
        == [Entry(NON_FIELD, Lines([Bare(Name("x")), Unexpected(["u"])]))]
    ensures Held(Get(Reword(MAPPED_BESIDE_UNKNOWN, Parameters(map[])), NON_FIELD)) == [Unexpected(["u"])]
  {
    var level := MAPPED_BESIDE_UNKNOWN;
    MappedReworded();
    MessagesOfOne(Name("x"), REFUSED);
    assert level == [level[0], level[1]] && level[1..] == [level[1]] && [level[0]][1..] == [];
    assert Spread(Some(level[0].value)) == [Bare(Name("x"))];
    SpreadMessages(Some(level[0].value), Unexpected(["u"]));
    assert Spread(Some(level[0].value)) + [Unexpected(["u"])] == [Bare(Name("x")), Unexpected(["u"])];
  }

  lemma MappedReworded()
    ensures Reword(MAPPED_BESIDE_UNKNOWN, Parameters(map[]))
        == [Entry(NON_FIELD, Lines([Bare(Name("x")), Unexpected(["u"])]))]
  {
    var level, ps := MAPPED_BESIDE_UNKNOWN, Parameters(map[]);
    KeptOfTwo(level[0], level[1], ps);
    assert level == [level[0], level[1]];
    assert Kept(level, ps) == [level[0]] && UnknownNames(level, ps) == ["u"];
    AnnouncedAlone(level[0]);
  }

  lemma AnnouncedAlone(e: Entry)
    requires e == MAPPED_BESIDE_UNKNOWN[0]
    ensures Announce([e], ["u"]) == [Entry(NON_FIELD, Lines([Bare(Name("x")), Unexpected(["u"])]))]
  {
    assert [e][1..] == [] && ["u"][1..] == [];
    assert Spread(Some(e.value)) == [Bare(Name("x"))];
    assert Sort(["u"]) == ["u"];
    assert Spread(Some(e.value)) + [Unexpected(["u"])] == [Bare(Name("x")), Unexpected(["u"])];
  }

  // --- rewording twice is rewording once

  lemma {:induction false} RewordingIsIdempotent(level: seq<Entry>, ps: Parameters)
    ensures Reword(Reword(level, ps), ps) == Reword(level, ps)
    decreases level, 1
  {
    KeptSettles(level, ps);
    var kept, unknown := Kept(level, ps), UnknownNames(level, ps);
    if unknown != [] {
      PutSettles(kept, ps, Spread(Get(kept, NON_FIELD)) + [Unexpected(Sort(unknown))]);
    }
  }

  /** `es` is as rewording leaves it: nothing unknown, every row reworded. */
  ghost predicate Settled(es: seq<Entry>, ps: Parameters) {
    UnknownNames(es, ps) == [] && Kept(es, ps) == es
  }

  lemma {:induction false} KeptSettles(level: seq<Entry>, ps: Parameters)
    ensures Settled(Kept(level, ps), ps)
    decreases level, 0
  {
    if level != [] {
      KeptSettles(level[1..], ps);
      if !IsUnknown(ps, level[0]) {
        EntrySettles(level[0], ps);
        assert Kept(level, ps)[1..] == Kept(level[1..], ps);
      }
    }
  }

  lemma {:induction false} EntrySettles(e: Entry, ps: Parameters)
    requires !IsUnknown(ps, e)
    ensures !IsUnknown(ps, KeptEntry(e, ps)) && KeptEntry(KeptEntry(e, ps), ps) == KeptEntry(e, ps)
    decreases e
  {
    if RowsOf(ps, e.key).Some? && e.value.Table? {
      RowsSettle(e.value, RowsOf(ps, e.key).value);
    }
  }

  lemma {:induction false} RowsSettle(errors: Detail, rows: Parameters)
    requires errors.Table?
    ensures RewordRows(RewordRows(errors, rows), rows) == RewordRows(errors, rows)
    decreases errors
  {
    RowEntriesSettle(errors.entries, rows);
  }

  lemma {:induction false} RowEntriesSettle(es: seq<Entry>, rows: Parameters)
    ensures RowEntries(RowEntries(es, rows), rows) == RowEntries(es, rows)
    decreases es
  {
    if es != [] {
      RowSettles(es[0], rows);
      RowEntriesSettle(es[1..], rows);
      assert RowEntries(es, rows)[1..] == RowEntries(es[1..], rows);
    }
  }

  lemma {:induction false} RowSettles(e: Entry, rows: Parameters)
    ensures RowEntry(RowEntry(e, rows), rows) == RowEntry(e, rows)
    decreases e
  {
    if e.value.Table? {
      RewordingIsIdempotent(e.value.entries, rows);
    }
  }

  lemma {:induction false} PutSettles(es: seq<Entry>, ps: Parameters, lines: seq<Detail>)
    requires Settled(es, ps)
    ensures Settled(Put(es, NON_FIELD, Lines(lines)), ps)
  {
    var put := Put(es, NON_FIELD, Lines(lines));
    if es == [] {
      assert put[1..] == [];
    } else {
      assert !IsUnknown(ps, es[0]) && Kept(es, ps)[1..] == Kept(es[1..], ps);
      if es[0].key == NON_FIELD {
        assert put[1..] == es[1..];
      } else {
        PutSettles(es[1..], ps, lines);
        assert put[1..] == Put(es[1..], NON_FIELD, Lines(lines));
      }
    }
  }
}
