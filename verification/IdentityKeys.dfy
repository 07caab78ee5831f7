/**
  The caches of one edge call keyed by `id()`: what a context callable answered,
  and the offline pairs built. An entry holds the objects its key was made of, so
  none of them is freed, and none of their ids reused, while the call lasts.
*/
module IdentityKeys {
  import opened Prelude

  type Id = nat
  /** An object, by a number no other object ever has. */
  type Object = nat
  type Ids = map<Object, Id>

  datatype Table = ContextAnswers | OfflinePairs

  /** One part of what an entry is for: an object, a word, or nothing. */
  datatype Part = Ref(obj: Object) | Word(text: string) | Nothing

  /** The same part in a key: the object's id. */
  datatype KeyPart = AnId(id: Id) | AWord(text: string) | NoPart

  predicate PartLive(ids: Ids, p: Part) {
    p.Ref? ==> p.obj in ids
  }

  ghost predicate Live(ids: Ids, parts: seq<Part>) {
    forall i :: 0 <= i < |parts| ==> PartLive(ids, parts[i])
  }

  function KeyPartOf(ids: Ids, p: Part): KeyPart
    requires PartLive(ids, p)
  {
    match p
    case Ref(obj) => AnId(ids[obj])
    case Word(text) => AWord(text)
    case Nothing => NoPart
  }

  function KeyOf(ids: Ids, parts: seq<Part>): (k: seq<KeyPart>)
    requires Live(ids, parts)
    ensures |k| == |parts| && forall i :: 0 <= i < |parts| ==> k[i] == KeyPartOf(ids, parts[i])
  {
    seq(|parts|, i requires 0 <= i < |parts| => KeyPartOf(ids, parts[i]))
  }

  ghost predicate Distinguishes(ids: Ids) {
    forall o, p :: o in ids && p in ids && ids[o] == ids[p] ==> o == p
  }

  /** Among live objects, a key says which very objects it was made of. */
  lemma KeyTellsObjects(ids: Ids, a: seq<Part>, b: seq<Part>)
    requires Distinguishes(ids) && Live(ids, a) && Live(ids, b)
    ensures KeyOf(ids, a) == KeyOf(ids, b) <==> a == b
  {
    if KeyOf(ids, a) == KeyOf(ids, b) {
      forall i | 0 <= i < |a| ensures a[i] == b[i] {
        assert KeyOf(ids, a)[i] == KeyOf(ids, b)[i];
      }
    }
  }

  // --- what each cache's entries are for

  datatype Argument = Argument(name: string, value: Object)

  /** A context callable and the objects it is handed, in name order. */
  function AskParts(provider: Object, kwargs: seq<Argument>): seq<Part> {
    [Ref(provider)] + ArgumentParts(kwargs)
  }

  function ArgumentParts(kwargs: seq<Argument>): (parts: seq<Part>)
    ensures |parts| == 2 * |kwargs|
  {
    if kwargs == [] then [] else [Word(kwargs[0].name), Ref(kwargs[0].value)] + ArgumentParts(kwargs[1..])
  }

  function OptionalRef(o: Option<Object>): Part {
    if o.Some? then Ref(o.value) else Nothing
  }

  /** What an offline pair is built for: no shapes and an empty mapping of them are one. */
  function PairParts(principal: Object, arguments: Object, shapes: Option<Object>, isEmpty: Object -> bool,
                     action: Option<string>, request: Option<Object>): seq<Part>
  {
    [Ref(principal), Ref(arguments),
     if shapes.Some? && isEmpty(shapes.value) then Nothing else OptionalRef(shapes),
     if action.Some? then Word(action.value) else Nothing,
     OptionalRef(request)]
  }

  /** Two asks share an entry exactly where they are the same callable's, handed the same objects under the
      same names. */
  lemma {:induction false} AsksApart(p: Object, kwargs: seq<Argument>, q: Object, others: seq<Argument>)
    ensures AskParts(p, kwargs) == AskParts(q, others) <==> p == q && kwargs == others
  {
    ArgumentsApart(kwargs, others);
    if AskParts(p, kwargs) == AskParts(q, others) {
      assert AskParts(p, kwargs)[0] == AskParts(q, others)[0];
      assert AskParts(p, kwargs)[1..] == AskParts(q, others)[1..];
      assert AskParts(p, kwargs)[1..] == ArgumentParts(kwargs) && AskParts(q, others)[1..] == ArgumentParts(others);
    }
  }

  lemma {:induction false} ArgumentsApart(kwargs: seq<Argument>, others: seq<Argument>)
    ensures ArgumentParts(kwargs) == ArgumentParts(others) <==> kwargs == others
  {
    var a, b := ArgumentParts(kwargs), ArgumentParts(others);
    if a == b && kwargs != [] {
      assert a[0] == b[0] && a[1] == b[1];
      assert a[2..] == ArgumentParts(kwargs[1..]) && b[2..] == ArgumentParts(others[1..]);
      ArgumentsApart(kwargs[1..], others[1..]);
      assert kwargs == [kwargs[0]] + kwargs[1..] && others == [others[0]] + others[1..];
    }
  }

  /** Two pairs share an entry exactly where all five of their parts are the same, the shapes read so. */
  lemma PairsApart(p: Object, a: Object, s: Option<Object>, v: Option<string>, r: Option<Object>,
                   q: Object, b: Object, t: Option<Object>, w: Option<string>, u: Option<Object>,
                       isEmpty: Object -> bool)
    ensures PairParts(p, a, s, isEmpty, v, r) == PairParts(q, b, t, isEmpty, w, u) <==>
      (&& p == q && a == b && v == w && r == u
       && ((s.None? || isEmpty(s.value)) == (t.None? || isEmpty(t.value)))
       && (s.Some? && !isEmpty(s.value) ==> s == t))
  {
    var x, y := PairParts(p, a, s, isEmpty, v, r), PairParts(q, b, t, isEmpty, w, u);
    if x == y {
      assert x[0] == y[0] && x[1] == y[1] && x[2] == y[2] && x[3] == y[3] && x[4] == y[4];
    }
  }

  // --- the caches over a call

  datatype Entry = Entry(held: seq<Part>, answer: Object)

  type Place = (Table, seq<KeyPart>)

  /** What a call holds, in the memory it shares: `asked` counts the answers that were computed. */
  datatype Call = Call(ids: Ids, next: Object, entries: map<Place, Entry>, asked: nat)

  datatype Step = Make(id: Id) | Free(dead: Object) | Ask(table: Table, parts: seq<Part>, id: Id)

  ghost predicate Valid(c: Call) {
    && (forall o :: o in c.ids ==> o < c.next) && Distinguishes(c.ids)
    && forall p :: p in c.entries ==> Sound(c.ids, p, c.entries[p])
  }

  ghost predicate Sound(ids: Ids, p: Place, e: Entry) {
    Live(ids, e.held) && KeyOf(ids, e.held) == p.1 && e.answer in ids
  }

  ghost predicate Holds(c: Call, o: Object) {
    exists p :: p in c.entries && (Ref(o) in c.entries[p].held || c.entries[p].answer == o)
  }

  ghost predicate Unused(c: Call, id: Id) {
    forall o :: o in c.ids ==> c.ids[o] != id
  }

  ghost predicate Possible(c: Call, s: Step) {
    match s
    case Make(id) => Unused(c, id)
    case Free(dead) => dead in c.ids && !Holds(c, dead)
    case Ask(_, parts, id) => Live(c.ids, parts) && Unused(c, id)
  }

  function Next(c: Call, s: Step): Call
    requires s.Ask? ==> Live(c.ids, s.parts)
  {
    match s
    case Make(id) => c.(ids := c.ids[c.next := id], next := c.next + 1)
    case Free(dead) => c.(ids := c.ids - {dead})
    case Ask(table, parts, id) =>
      var place := (table, KeyOf(c.ids, parts));
      if place in c.entries then c
      else Call(c.ids[c.next := id], c.next + 1, c.entries[place := Entry(parts, c.next)], c.asked + 1)
  }

  /** What an ask is answered with: the entry's, where its key is held, and the callable's own otherwise. */
  function Answer(c: Call, table: Table, parts: seq<Part>): Object
    requires Live(c.ids, parts)
  {
    var place := (table, KeyOf(c.ids, parts));
    if place in c.entries then c.entries[place].answer else c.next
  }

  lemma StepKeepsValid(c: Call, s: Step)
    requires Valid(c) && Possible(c, s)
    ensures Valid(Next(c, s))
  {
    var n := Next(c, s);
    forall p | p in n.entries ensures Sound(n.ids, p, n.entries[p]) {
      if p in c.entries {
        var e := c.entries[p];
        assert Sound(c.ids, p, e);
        forall i | 0 <= i < |e.held| ensures PartLive(n.ids, e.held[i])
            && KeyPartOf(n.ids, e.held[i]) == KeyOf(c.ids, e.held)[i] {
          assert PartLive(c.ids, e.held[i]);
          if e.held[i].Ref? {
            assert Ref(e.held[i].obj) in e.held;
          }
        }
        assert KeyOf(n.ids, e.held) == KeyOf(c.ids, e.held);
      } else {
        var e := n.entries[p];
        forall i | 0 <= i < |e.held| ensures PartLive(n.ids, e.held[i])
            && KeyPartOf(n.ids, e.held[i]) == KeyOf(c.ids, e.held)[i] {
          assert PartLive(c.ids, e.held[i]);
        }
        assert KeyOf(n.ids, e.held) == KeyOf(c.ids, e.held);
      }
    }
  }

  /** A hit is for the very objects its entry was built for, whatever ids were freed and reused meanwhile. */
  lemma HitsAreForTheSame(c: Call, table: Table, parts: seq<Part>)
    requires Valid(c) && Live(c.ids, parts)
    ensures (table, KeyOf(c.ids, parts)) in c.entries
       <==> exists p :: p in c.entries && p.0 == table && c.entries[p].held == parts
    ensures (table, KeyOf(c.ids, parts)) in c.entries ==> c.entries[(table, KeyOf(c.ids, parts))].held == parts
  {
    var place := (table, KeyOf(c.ids, parts));
    if place in c.entries {
      assert Sound(c.ids, place, c.entries[place]);
      KeyTellsObjects(c.ids, c.entries[place].held, parts);
    }
    if p :| p in c.entries && p.0 == table && c.entries[p].held == parts {
      assert Sound(c.ids, p, c.entries[p]);
      assert p == place;
    }
  }

  ghost predicate Runs(c: Call, steps: seq<Step>)
    decreases |steps|
  {
    steps == [] || (Possible(c, steps[0]) && Runs(Next(c, steps[0]), steps[1..]))
  }

  ghost function After(c: Call, steps: seq<Step>): Call
    requires Runs(c, steps)
    decreases |steps|
  {
    if steps == [] then c else After(Next(c, steps[0]), steps[1..])
  }

  /** An entry, and the objects it was built for, last the whole call. */
  lemma {:induction false} EntriesLast(c: Call, steps: seq<Step>, p: Place)
    requires Valid(c) && Runs(c, steps) && p in c.entries
    ensures Valid(After(c, steps)) && p in After(c, steps).entries && After(c, steps).entries[p] == c.entries[p]
    decreases |steps|
  {
    if steps != [] {
      StepKeepsValid(c, steps[0]);
      EntriesLast(Next(c, steps[0]), steps[1..], p);
    }
  }

  /** Over any run of a call, asking again for the same objects answers the same and computes nothing. */
  lemma AskedOncePerCall(c: Call, table: Table, parts: seq<Part>, id: Id, between: seq<Step>, again: Id)
    requires Valid(c) && Possible(c, Ask(table, parts, id))
    requires Runs(Next(c, Ask(table, parts, id)), between)
    ensures var later := After(Next(c, Ask(table, parts, id)), between);
            && Valid(later) && Live(later.ids, parts)
            && Answer(later, table, parts) == Answer(c, table, parts)
            && Next(later, Ask(table, parts, again)) == later
  {
    var first, place := Next(c, Ask(table, parts, id)), (table, KeyOf(c.ids, parts));
    StepKeepsValid(c, Ask(table, parts, id));
    EntriesLast(first, between, place);
    HitsAreForTheSame(c, table, parts);
    var later := After(first, between);
    assert Sound(later.ids, place, later.entries[place]);
    assert later.entries[place].held == parts;
  }

  // --- as it runs

  class EdgeCaches {
    var ids: Ids
    var next: Object
    var entries: map<Place, Entry>
    var asked: nat

    ghost function State(): Call
      reads this
    {
      Call(ids, next, entries, asked)
    }

    constructor ()
      ensures State() == Call(map[], 0, map[], 0) && Valid(State())
    {
      ids, next, entries, asked := map[], 0, map[], 0;
    }

    /** The provider's answer, or the offline pair, asked or built where its key is not held. */
    method Held(table: Table, parts: seq<Part>, id: Id) returns (answer: Object)
      requires Valid(State()) && Possible(State(), Ask(table, parts, id))
      modifies this
      ensures State() == Next(old(State()), Ask(table, parts, id)) && Valid(State())
      ensures answer == Answer(old(State()), table, parts)
    {
      StepKeepsValid(State(), Ask(table, parts, id));
      var key := KeyOf(ids, parts);
      if (table, key) in entries {
        return entries[(table, key)].answer;
      }
      answer := next;
      asked := asked + 1;
      ids, next := ids[answer := id], next + 1;
      entries := entries[(table, key) := Entry(parts, answer)];
    }

    method ContextAnswer(provider: Object, kwargs: seq<Argument>, id: Id) returns (answer: Object)
      requires Valid(State()) && Possible(State(), Ask(ContextAnswers, AskParts(provider, kwargs), id))
      modifies this
      ensures State() == Next(old(State()), Ask(ContextAnswers, AskParts(provider, kwargs), id)) && Valid(State())
      ensures answer == Answer(old(State()), ContextAnswers, AskParts(provider, kwargs))
    {
      answer := Held(ContextAnswers, AskParts(provider, kwargs), id);
    }

    method OfflinePair(principal: Object, arguments: Object, shapes: Option<Object>, isEmpty: Object -> bool,
                       action: Option<string>, request: Option<Object>, id: Id) returns (pair: Object)
      requires Valid(State()) && Possible(State(),
                                          Ask(OfflinePairs, PairParts(principal, arguments, shapes, isEmpty, action,
                                                                      request), id))
      modifies this
      ensures State()
           == Next(old(State()), Ask(OfflinePairs, PairParts(principal, arguments, shapes, isEmpty, action, request),
                                     id))
      ensures Valid(State())
      ensures pair
           == Answer(old(State()), OfflinePairs, PairParts(principal, arguments, shapes, isEmpty, action, request))
    {
      pair := Held(OfflinePairs, PairParts(principal, arguments, shapes, isEmpty, action, request), id);
    }
  }
}
