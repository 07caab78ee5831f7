/**
  Where an author's values go: a view hook's and the spec's `kwargs` provider's,
  each put over the caller's argument it names, or handed on beside the arguments.
*/
module AuthorValues {
  import opened Prelude

  /** A value, or the sentinel an author declines a key with. */
  datatype Value = Unset | Given(id: int)

  type Values = map<string, Value>

  /** The call's arguments, the one dict every step of the edge updates. */
  class Arguments {
    var values: Values

    constructor (values: Values)
      ensures this.values == values
    {
      this.values := values;
    }
  }

  /** No two sources are one field's wire name. */
  ghost predicate Injective(wire: map<string, string>) {
    forall s, t :: s in wire && t in wire && wire[s] == wire[t] ==> s == t
  }

  function ArgumentOf(wire: map<string, string>, name: string): string {
    if name in wire then wire[name] else name
  }

  predicate Gives(values: Values, name: string) {
    name in values && values[name] != Unset
  }

  /** Whether `name` claims the argument it names: outright, or as the `source` of a field nobody names. */
  predicate Claims(names: set<string>, wire: map<string, string>, values: Values, name: string) {
    && Gives(values, name)
    && (name in names || (ArgumentOf(wire, name) in names && !Gives(values, ArgumentOf(wire, name))))
  }

  /** The argument a claiming key goes into: its own, or its field's. */
  function Target(names: set<string>, wire: map<string, string>, name: string): string {
    if name in names then name else ArgumentOf(wire, name)
  }

  /** Which key each argument was given under, what went into it, and what is handed on beside the
      arguments. */
  datatype Split = Split(authored: map<string, string>, routed: Values, rest: Values)

  ghost predicate IsSplit(s: Split, names: set<string>, wire: map<string, string>, values: Values) {
    && (forall a :: a in s.authored <==>
          exists name :: name in values && Claims(names, wire, values, name) && Target(names, wire, name) == a)
    && (forall name :: name in values && Claims(names, wire, values, name) ==>
          Target(names, wire, name) in s.authored && s.authored[Target(names, wire, name)] == name)
    && s.routed.Keys == s.authored.Keys
    && (forall a :: a in s.routed ==> s.authored[a] in values && s.routed[a] == values[s.authored[a]])
    && s.rest == map name | name in values && Gives(values, name) && !Claims(names, wire, values, name) :: values[name]
  }

  /** Two keys never claim one argument, so the split is one whatever order the keys come in. */
  lemma ClaimsApart(names: set<string>, wire: map<string, string>, values: Values, a: string, b: string)
    requires Injective(wire) && Claims(names, wire, values, a) && Claims(names, wire, values, b)
    requires Target(names, wire, a) == Target(names, wire, b)
    ensures a == b
  {
  }

  lemma SplitIsUnique(s: Split, t: Split, names: set<string>, wire: map<string, string>, values: Values)
    requires IsSplit(s, names, wire, values) && IsSplit(t, names, wire, values)
    ensures s == t
  {
    assert s.authored.Keys == t.authored.Keys;
    forall a | a in s.authored ensures s.authored[a] == t.authored[a] {
      var name :| name in values && Claims(names, wire, values, name) && Target(names, wire, name) == a;
    }
    assert s.authored == t.authored;
    assert s.routed == t.routed;
  }

  /** What the naming loop leaves: every claim recorded, and nothing recorded that is given and is an
      argument but a claim. */
  ghost predicate Named(named: map<string, string>, names: set<string>, wire: map<string, string>, values: Values) {
    && (forall a :: a in named ==> named[a] in values && Target(names, wire, named[a]) == a)
    && (forall name :: name in values && Claims(names, wire, values, name) ==>
          Target(names, wire, name) in named && named[Target(names, wire, name)] == name)
    && (forall a :: a in named && a in names && Gives(values, named[a]) ==> Claims(names, wire, values, named[a]))
  }

  /** Each key naming an argument outright claims it, then each other key the field whose `source` it is,
      where none has. */
  method NameArguments(names: set<string>, values: Values, wire: map<string, string>)
      returns (named: map<string, string>)
    requires Injective(wire)
    ensures Named(named, names, wire, values)
  {
    named := map name | name in values && name in names && Gives(values, name) :: name;
    var pending := values.Keys;
    while pending != {}
      invariant forall name :: name in names && Gives(values, name) ==> name in named && named[name] == name
      invariant forall a :: a in named ==>
        && named[a] in values && Target(names, wire, named[a]) == a
        && (if named[a] in names then Gives(values, named[a]) else a !in names || !Gives(values, a))
      invariant forall name :: name in values && name !in pending && name !in names ==> ArgumentOf(wire, name) in named
      decreases pending
    {
      var name :| name in pending;
      pending := pending - {name};
      var argument := ArgumentOf(wire, name);
      if name in values && name !in names && argument !in named {
        named := named[argument := name];
      }
    }
    forall name | name in values && Claims(names, wire, values, name)
      ensures Target(names, wire, name) in named && named[Target(names, wire, name)] == name
    {
      var a := Target(names, wire, name);
      if name !in names {
        assert named[a] !in names;
        assert wire[name] == wire[named[a]];
      }
    }
  }

  /** What the loops named, kept where it names an argument and is given, is the split. */
  function AuthoredOf(named: map<string, string>, names: set<string>, values: Values): map<string, string>
    requires forall a :: a in named ==> named[a] in values
  {
    map a | a in named && values[named[a]] != Unset && a in names :: named[a]
  }

  function TakenBy(authored: map<string, string>): set<string> {
    set a | a in authored :: authored[a]
  }

  function RestOf(values: Values, taken: set<string>): Values {
    map name | name in values && name !in taken && values[name] != Unset :: values[name]
  }

  lemma AuthoredClaims(named: map<string, string>, names: set<string>, wire: map<string, string>, values: Values,
                       name: string)
    requires Named(named, names, wire, values) && name in values
    ensures var authored := AuthoredOf(named, names, values);
            && (name in TakenBy(authored) <==> Claims(names, wire, values, name))
            && (Claims(names, wire, values, name) ==>
                Target(names, wire, name) in authored && authored[Target(names, wire, name)] == name)
  {
    var authored := AuthoredOf(named, names, values);
    if Claims(names, wire, values, name) {
      assert authored[Target(names, wire, name)] == name;
    }
  }

  lemma NamedAreClaims(named: map<string, string>, names: set<string>, wire: map<string, string>, values: Values,
                       a: string)
    requires Named(named, names, wire, values)
    ensures a in AuthoredOf(named, names, values)
       <==> exists name :: name in values && Claims(names, wire, values, name) && Target(names, wire, name) == a
  {
    var authored := AuthoredOf(named, names, values);
    if a in authored {
      assert Claims(names, wire, values, authored[a]) && Target(names, wire, authored[a]) == a;
    }
  }

  lemma NamedLeaves(named: map<string, string>, names: set<string>, wire: map<string, string>, values: Values)
    requires Named(named, names, wire, values)
    ensures RestOf(values, TakenBy(AuthoredOf(named, names, values)))
         == map name | name in values && Gives(values, name) && !Claims(names, wire, values, name) :: values[name]
  {
    forall name | name in values
      ensures name in TakenBy(AuthoredOf(named, names, values)) <==> Claims(names, wire, values, name)
    {
      AuthoredClaims(named, names, wire, values, name);
    }
  }

  lemma NamedSplits(named: map<string, string>, s: Split, names: set<string>, wire: map<string, string>, values: Values)
    requires Named(named, names, wire, values)
    requires s.authored == AuthoredOf(named, names, values)
    requires s.routed == map a | a in s.authored :: values[s.authored[a]]
    requires s.rest == RestOf(values, TakenBy(s.authored))
    ensures IsSplit(s, names, wire, values)
  {
    NamedLeaves(named, names, wire, values);
    forall name | name in values && Claims(names, wire, values, name)
      ensures Target(names, wire, name) in s.authored && s.authored[Target(names, wire, name)] == name
    {
      AuthoredClaims(named, names, wire, values, name);
    }
    forall a
      ensures a in s.authored <==>
        exists name :: name in values && Claims(names, wire, values, name) && Target(names, wire, name) == a
    {
      NamedAreClaims(named, names, wire, values, a);
    }
  }

  /** As it runs. Arguments that are no dict take nothing. */
  method SplitAuthorValues(names: set<string>, arguments: Arguments?, values: Values, wire: map<string, string>)
    returns (authored: map<string, string>, rest: Values, ghost split: Split)
    requires Injective(wire)
    modifies arguments
    ensures IsSplit(split, names, wire, values) && authored == split.authored && rest == split.rest
    ensures arguments != null ==> arguments.values == old(arguments.values) + split.routed
  {
    var named := NameArguments(names, values, wire);
    authored := AuthoredOf(named, names, values);
    var routed := map a | a in authored :: values[authored[a]];
    if arguments != null {
      arguments.values := arguments.values + routed;
    }
    rest := RestOf(values, TakenBy(authored));
    split := Split(authored, routed, rest);
    NamedSplits(named, split, names, wire, values);
  }

  /** The key an argument is claimed by. */
  ghost function KeyFor(names: set<string>, wire: map<string, string>, values: Values, a: string): (name: string)
    requires exists name :: name in values && Claims(names, wire, values, name) && Target(names, wire, name) == a
    ensures name in values && Claims(names, wire, values, name) && Target(names, wire, name) == a
  {
    var name :| name in values && Claims(names, wire, values, name) && Target(names, wire, name) == a;
    name
  }

  /** The split, by no order. */
  ghost function SplitOf(names: set<string>, wire: map<string, string>, values: Values): (s: Split)
    requires Injective(wire)
  {
    var claimed := set name | name in values && Claims(names, wire, values, name) :: Target(names, wire, name);
    var authored := map a | a in claimed :: KeyFor(names, wire, values, a);
    Split(authored, map a | a in claimed :: values[KeyFor(names, wire, values, a)],
          map name | name in values && Gives(values, name) && !Claims(names, wire, values, name) :: values[name])
  }

  lemma SplitOfIsSplit(names: set<string>, wire: map<string, string>, values: Values)
    requires Injective(wire)
    ensures IsSplit(SplitOf(names, wire, values), names, wire, values)
  {
    var s := SplitOf(names, wire, values);
    forall name | name in values && Claims(names, wire, values, name)
      ensures Target(names, wire, name) in s.authored && s.authored[Target(names, wire, name)] == name
    {
      ClaimsApart(names, wire, values, name, KeyFor(names, wire, values, Target(names, wire, name)));
    }
  }

  // --- what a split promises

  /** Every value given goes to exactly one place: the one argument its key claims, or the rest under its own
      name. A declined key goes nowhere, a key naming an argument outright is always the one that claims it,
      and nothing that is left names an argument. */
  lemma EveryValueHasOnePlace(names: set<string>, wire: map<string, string>, values: Values)
    requires Injective(wire)
    ensures var s := SplitOf(names, wire, values);
      && (forall a, b :: a in s.authored && b in s.authored && s.authored[a] == s.authored[b] ==> a == b)
      && (forall name :: name in values ==>
            ((exists a :: a in s.authored && s.authored[a] == name) <==> Gives(values, name) && name !in s.rest))
      && (forall name :: name in s.rest ==> Gives(values, name) && s.rest[name] == values[name] && name !in names)
      && (forall a :: a in s.authored ==> a in names && s.routed[a] == values[s.authored[a]] && s.routed[a] != Unset)
      && (forall a :: a in names && Gives(values, a) ==> a in s.authored && s.authored[a] == a)
  {
    var s := SplitOf(names, wire, values);
    SplitOfIsSplit(names, wire, values);
    forall a | a in s.authored
      ensures a in names && Claims(names, wire, values, s.authored[a]) && Target(names, wire, s.authored[a]) == a
    {
      var name :| name in values && Claims(names, wire, values, name) && Target(names, wire, name) == a;
    }
    forall name | name in values
      ensures (exists a :: a in s.authored && s.authored[a] == name) <==> Gives(values, name) && name !in s.rest
    {
      if Claims(names, wire, values, name) {
        assert s.authored[Target(names, wire, name)] == name;
      }
    }
  }

  /** The key an author's values answer an argument under: its own name where they give that, else the `source` it
      is the wire name of. */
  ghost function KeyAnswering(names: set<string>, wire: map<string, string>, values: Values,
                              a: string): Option<string> {
    if a !in names then None
    else if Gives(values, a) then Some(a)
    else if AnsweredBySource(names, wire, values, a) then
      var k :| k in wire && wire[k] == a && k !in names && Gives(values, k);
      Some(k)
    else None
  }

  ghost predicate AnsweredBySource(names: set<string>, wire: map<string, string>, values: Values, a: string) {
    exists k :: k in wire && wire[k] == a && k !in names && Gives(values, k)
  }

  /** An argument is given the value of the key that answers it, and nothing where none does. */
  lemma ArgumentsAnswered(names: set<string>, wire: map<string, string>, values: Values, a: string)
    requires Injective(wire)
    ensures var s, k := SplitOf(names, wire, values), KeyAnswering(names, wire, values, a);
            && (a in s.authored <==> k.Some?) && (a in s.routed <==> k.Some?)
            && (k.Some? ==> k.value in values && s.authored[a] == k.value && s.routed[a] == values[k.value])
  {
    var s, k := SplitOf(names, wire, values), KeyAnswering(names, wire, values, a);
    SplitOfIsSplit(names, wire, values);
    if k.Some? {
      assert Claims(names, wire, values, k.value) && Target(names, wire, k.value) == a;
    }
  }

  lemma ClaimsDeclineNothing(names: set<string>, wire: map<string, string>, values: Values, declined: set<string>,
                             name: string)
    requires forall k :: k in declined ==> !Gives(values, k)
    ensures Gives(values - declined, name) <==> Gives(values, name)
    ensures Claims(names, wire, values - declined, name) <==> Claims(names, wire, values, name)
  {
  }

  lemma SplitsAlikeAt(names: set<string>, wire: map<string, string>, values: Values, declined: set<string>, a: string)
    requires Injective(wire) && forall k :: k in declined ==> !Gives(values, k)
    ensures var s, t := SplitOf(names, wire, values), SplitOf(names, wire, values - declined);
            && (a in s.authored <==> a in t.authored)
            && (a in s.authored ==> s.authored[a] == t.authored[a])
  {
    var fewer := values - declined;
    SplitOfIsSplit(names, wire, values);
    SplitOfIsSplit(names, wire, fewer);
    if a in SplitOf(names, wire, values).authored {
      var name :| name in values && Claims(names, wire, values, name) && Target(names, wire, name) == a;
      ClaimsDeclineNothing(names, wire, values, declined, name);
    } else if a in SplitOf(names, wire, fewer).authored {
      var name :| name in fewer && Claims(names, wire, fewer, name) && Target(names, wire, name) == a;
      ClaimsDeclineNothing(names, wire, values, declined, name);
    }
  }

  lemma RestsAlike(names: set<string>, wire: map<string, string>, values: Values, declined: set<string>)
    requires Injective(wire) && forall k :: k in declined ==> !Gives(values, k)
    ensures SplitOf(names, wire, values).rest == SplitOf(names, wire, values - declined).rest
  {
    forall name
      ensures Gives(values - declined, name) <==> Gives(values, name)
      ensures Claims(names, wire, values - declined, name) <==> Claims(names, wire, values, name)
    {
      ClaimsDeclineNothing(names, wire, values, declined, name);
    }
  }

  lemma RoutedOfAuthored(names: set<string>, wire: map<string, string>, values: Values)
    requires Injective(wire)
    ensures var s := SplitOf(names, wire, values);
            s.routed.Keys == s.authored.Keys && forall a :: a in s.authored ==>
                s.authored[a] in values && s.routed[a] == values[s.authored[a]]
  {
    SplitOfIsSplit(names, wire, values);
  }

  /** A key an author declines is as if it were not there. */
  lemma DeclinedKeysSplitNothing(names: set<string>, wire: map<string, string>, values: Values, declined: set<string>)
    requires Injective(wire) && forall name :: name in declined ==> !Gives(values, name)
    ensures SplitOf(names, wire, values) == SplitOf(names, wire, values - declined)
  {
    var s, t := SplitOf(names, wire, values), SplitOf(names, wire, values - declined);
    forall a
      ensures a in s.authored <==> a in t.authored
      ensures a in s.authored && a in t.authored ==> s.authored[a] == t.authored[a]
    {
      SplitsAlikeAt(names, wire, values, declined, a);
    }
    assert s.authored == t.authored;
    RoutedOfAuthored(names, wire, values);
    RoutedOfAuthored(names, wire, values - declined);
    assert s.routed == t.routed;
    RestsAlike(names, wire, values, declined);
  }

  // --- the two authors of one call

  /** A view's hook values, and the spec's `kwargs` provider: what it answered, where there is one, and the
      keys it is annotated to fill. */
  datatype Author = Author(hooks: Values, provided: Option<Values>, filled: set<string>)

  /** What the compiled spec makes of names: those a caller fills, and of them the Validator's fields; each
      `source`'s wire name; the seeds; the names a filter reads and a callable hides; and the other filter
      names of a selector spec. */
  datatype Seat = Seat(names: set<string>, fields: set<string>, wire: map<string, string>, seeded: set<string>,
                       shadowed: set<string>, filtered: set<string>)

  const SERVER_CHANNEL := "_server_owned_"

  function ServerChannel(name: string): string { SERVER_CHANNEL + name }

  /** The keys the provider owns, whatever it answers: no client's value becomes one. */
  function Owned(seat: Seat, filled: set<string>): set<string> {
    filled - seat.shadowed
  }

  predicate HookOwned(seat: Seat, filled: set<string>, name: string) {
    var owned := Owned(seat, filled);
    || name in owned
    || (exists o :: o in owned && o in seat.wire && seat.wire[o] == name)
    || (name in seat.wire && seat.wire[name] in owned)
  }

  /** The hook values that are used: none naming a seed, or a value the provider owns by either name. */
  function HookValues(seat: Seat, hooks: Values, filled: set<string>): Values {
    map name | name in hooks && name !in seat.seeded && !HookOwned(seat, filled, name) :: hooks[name]
  }

  function Hooks(seat: Seat, author: Author): Values {
    HookValues(seat, author.hooks, author.filled)
  }

  function Provided(author: Author): Values {
    if author.provided.Some? then author.provided.value else map[]
  }

  /** The values of each that are split: a filter's names apart, as the routing keeps them. */
  function HookSplitValues(seat: Seat, hooks: Values): Values {
    map name | name in hooks && name !in seat.shadowed && name !in seat.filtered :: hooks[name]
  }

  function ProvidedSplitValues(seat: Seat, provided: Values): Values {
    map name | name in provided && name !in seat.shadowed :: provided[name]
  }

  ghost function HookSplit(seat: Seat, author: Author): Split
    requires Injective(seat.wire)
  {
    SplitOf(seat.names, seat.wire, HookSplitValues(seat, Hooks(seat, author)))
  }

  ghost function ProvidedSplit(seat: Seat, author: Author): Split
    requires Injective(seat.wire)
  {
    SplitOf(seat.names, seat.wire, ProvidedSplitValues(seat, Provided(author)))
  }

  /** What both answer for a key: the provider's over the hooks'. */
  function Both(seat: Seat, author: Author): Values {
    Hooks(seat, author) + Provided(author)
  }

  /** Each name of `shadowed` that `both` answers, under its server channel. */
  function Channelled(shadowed: set<string>, both: Values): Values {
    map k | k in ServerChannels(shadowed * both.Keys) :: both[k[|SERVER_CHANNEL|..]]
  }

  function ServerChannels(names: set<string>): (r: set<string>)
    ensures forall name :: name in names <==> ServerChannel(name) in r
    ensures forall k :: k in r ==>
      SERVER_CHANNEL <= k && k[|SERVER_CHANNEL|..] in names && k == ServerChannel(k[|SERVER_CHANNEL|..])
  {
    var r := set name | name in names :: ServerChannel(name);
    assert forall name :: ServerChannel(name)[|SERVER_CHANNEL|..] == name;
    r
  }

  function AtNames(values: Values, names: set<string>): Values {
    map name | name in values && name in names :: values[name]
  }

  datatype Outcome = SeedRefused(taken: set<string>) | Routed(rest: Values, authored: map<string, string>,
                                                              beside: Values)

  /** A provider answering a seed's name is refused. */
  predicate NamesASeed(seat: Seat, author: Author) {
    Provided(author).Keys * seat.seeded != {}
  }

  ghost function Routing(seat: Seat, author: Author): Outcome
    requires Injective(seat.wire)
  {
    if NamesASeed(seat, author) then SeedRefused(Provided(author).Keys * seat.seeded)
    else
      var hooks := HookSplit(seat, author);
      var provided := ProvidedSplit(seat, author);
      Routed(hooks.rest + provided.rest + Channelled(seat.shadowed, Both(seat, author)),
             hooks.authored + provided.authored,
             AtNames(Both(seat, author), seat.filtered))
  }

  /** The arguments once both authors' values are in: the caller's, less what the provider owns and no field
      keeps, then the hooks' over them, then the provider's. */
  ghost function RoutedArguments(seat: Seat, author: Author, arguments: Values): Values
    requires Injective(seat.wire)
  {
    (arguments - (Owned(seat, author.filled) - seat.fields))
    + HookSplit(seat, author).routed
    + ProvidedSplit(seat, author).routed
  }

  /** As it runs. The provider has been called, once, with what it answered in `author`. */
  method RouteAuthorValues(seat: Seat, author: Author, arguments: Arguments?) returns (out: Outcome)
    requires Injective(seat.wire)
    modifies arguments
    ensures out == Routing(seat, author)
    ensures arguments != null && !out.SeedRefused? ==>
      arguments.values == RoutedArguments(seat, author, old(arguments.values))
  {
    var owned := Owned(seat, author.filled);
    if arguments != null {
      arguments.values := arguments.values - (owned - seat.fields);
    }
    var taken := Provided(author).Keys * seat.seeded;
    if taken != {} {
      return SeedRefused(taken);
    }
    ghost var hookSplit, providedSplit;
    var hooked, hookRest, supplied, providedRest;
    hooked, hookRest, hookSplit := SplitAuthorValues(seat.names, arguments, HookSplitValues(seat, Hooks(seat, author)),
                                                     seat.wire);
    supplied, providedRest, providedSplit := SplitAuthorValues(seat.names, arguments,
                                                               ProvidedSplitValues(seat, Provided(author)), seat.wire);
    SplitOfIsSplit(seat.names, seat.wire, HookSplitValues(seat, Hooks(seat, author)));
    SplitOfIsSplit(seat.names, seat.wire, ProvidedSplitValues(seat, Provided(author)));
    SplitIsUnique(hookSplit, HookSplit(seat, author), seat.names, seat.wire,
                  HookSplitValues(seat, Hooks(seat, author)));
    SplitIsUnique(providedSplit, ProvidedSplit(seat, author), seat.names, seat.wire,
                  ProvidedSplitValues(seat, Provided(author)));
    var both := Both(seat, author);
    out := Routed(hookRest + providedRest + Channelled(seat.shadowed, both), hooked + supplied,
                  AtNames(both, seat.filtered));
  }

  // --- what the routing promises

  /** The provider's value, else the hooks', else the caller's: which one an argument ends as. */
  lemma ProviderThenHookThenCaller(seat: Seat, author: Author, arguments: Values, a: string)
    requires Injective(seat.wire) && a in seat.names
    ensures var hooks := HookSplit(seat, author).authored;
            var provided := ProvidedSplit(seat, author).authored;
            var ended := RoutedArguments(seat, author, arguments);
            && (a in provided ==> a in ended && ended[a] == Provided(author)[provided[a]])
            && (a !in provided && a in hooks ==> a in ended && ended[a] == author.hooks[hooks[a]])
            && (a !in provided && a !in hooks ==>
                  && (a in ended <==> a in arguments && a !in Owned(seat, author.filled) - seat.fields)
                  && (a in ended ==> ended[a] == arguments[a]))
  {
  }

  lemma RestIsLeft(names: set<string>, wire: map<string, string>, values: Values, name: string)
    requires Injective(wire) && name in SplitOf(names, wire, values).rest
    ensures name in values && SplitOf(names, wire, values).rest[name] == values[name]
    ensures values[name] != Unset && name !in names
  {
    SplitOfIsSplit(names, wire, values);
  }

  /** What is handed on beside the arguments names no argument and no seed, and is given: a key on a server
      channel apart, it is the provider's value where the provider's went into no argument, else the hooks'. */
  lemma RestNamesNoArgument(seat: Seat, author: Author, name: string)
    requires Injective(seat.wire) && Routing(seat, author).Routed?
    requires name in Routing(seat, author).rest && !(SERVER_CHANNEL <= name)
    ensures name !in seat.names && name !in seat.seeded
    ensures Routing(seat, author).rest[name] != Unset
    ensures name in ProvidedSplit(seat, author).rest ==>
      name in Provided(author) && Routing(seat, author).rest[name] == Provided(author)[name]
    ensures name !in ProvidedSplit(seat, author).rest ==>
      name in author.hooks && Routing(seat, author).rest[name] == author.hooks[name]
  {
    assert name !in Channelled(seat.shadowed, Both(seat, author));
    if name in ProvidedSplit(seat, author).rest {
      RestIsLeft(seat.names, seat.wire, ProvidedSplitValues(seat, Provided(author)), name);
      assert name !in Provided(author).Keys * seat.seeded;
    } else {
      RestIsLeft(seat.names, seat.wire, HookSplitValues(seat, Hooks(seat, author)), name);
    }
  }

  /** A key both authors give, and no hook's value of it went into an argument: beside the arguments the
      provider's stands exactly where the provider's went into none either. Where a hook names a field by both
      its names and the provider by its `source` alone, the hook's stays under the `source`. */
  lemma ProviderOutranksTheHookPerKey(seat: Seat, author: Author, name: string)
    requires Injective(seat.wire) && Routing(seat, author).Routed? && !(SERVER_CHANNEL <= name)
    requires name in HookSplit(seat, author).rest && Gives(Provided(author), name) && name !in seat.shadowed
    requires name in author.hooks && author.hooks[name] != Provided(author)[name]
    ensures name in Routing(seat, author).rest
    ensures Routing(seat, author).rest[name] == Provided(author)[name]
       <==> !Claims(seat.names, seat.wire, ProvidedSplitValues(seat, Provided(author)), name)
  {
    var values := ProvidedSplitValues(seat, Provided(author));
    SplitOfIsSplit(seat.names, seat.wire, values);
    assert name in ProvidedSplit(seat, author).rest <==> !Claims(seat.names, seat.wire, values, name);
    RestNamesNoArgument(seat, author, name);
  }

  /** A field named both ways: `tenant` on the wire, `tenant_id` its `source`. */
  const BOTH_NAMES := Seat({"tenant"}, {"tenant"}, map["tenant_id" := "tenant"], {}, {}, {})

  /** A hook naming the field by both its names, beside an untyped provider naming it by its `source` alone. */
  const NAMES_BOTH := Author(map["tenant" := Given(1), "tenant_id" := Given(2)], Some(map["tenant_id" := Given(3)]), {})

  lemma NamedByBoth(values: Values)
    requires values == map["tenant" := Given(1), "tenant_id" := Given(2)]
    ensures SplitOf(BOTH_NAMES.names, BOTH_NAMES.wire, values).rest == map["tenant_id" := Given(2)]
  {
    assert !Claims(BOTH_NAMES.names, BOTH_NAMES.wire, values, "tenant_id");
    assert Claims(BOTH_NAMES.names, BOTH_NAMES.wire, values, "tenant");
  }

  lemma NamedByItsSource(values: Values)
    requires values == map["tenant_id" := Given(3)] && Injective(BOTH_NAMES.wire)
    ensures SplitOf(BOTH_NAMES.names, BOTH_NAMES.wire, values).rest == map[]
    ensures "tenant" in SplitOf(BOTH_NAMES.names, BOTH_NAMES.wire, values).routed
    ensures SplitOf(BOTH_NAMES.names, BOTH_NAMES.wire, values).routed["tenant"] == Given(3)
  {
    SplitOfIsSplit(BOTH_NAMES.names, BOTH_NAMES.wire, values);
    assert Claims(BOTH_NAMES.names, BOTH_NAMES.wire, values, "tenant_id");
    assert Target(BOTH_NAMES.names, BOTH_NAMES.wire, "tenant_id") == "tenant";
  }

  /** There the provider's value is the field's, and the hook's is still handed on under the `source`. */
  lemma AHooksSourceValueStays(arguments: Values)
    ensures Injective(BOTH_NAMES.wire) && Routing(BOTH_NAMES, NAMES_BOTH).Routed?
    ensures Routing(BOTH_NAMES, NAMES_BOTH).rest == map["tenant_id" := Given(2)]
    ensures "tenant" in RoutedArguments(BOTH_NAMES, NAMES_BOTH, arguments)
    ensures RoutedArguments(BOTH_NAMES, NAMES_BOTH, arguments)["tenant"] == Given(3)
  {
    var seat, author := BOTH_NAMES, NAMES_BOTH;
    NothingHookOwned();
    NamedByBoth(HookSplitValues(seat, Hooks(seat, author)));
    NamedByItsSource(ProvidedSplitValues(seat, Provided(author)));
    RoutedPlainly(HookSplit(seat, author).rest, ProvidedSplit(seat, author).rest, Both(seat, author));
  }

  lemma NothingHookOwned()
    ensures HookSplitValues(BOTH_NAMES, Hooks(BOTH_NAMES, NAMES_BOTH)) == NAMES_BOTH.hooks
    ensures ProvidedSplitValues(BOTH_NAMES, Provided(NAMES_BOTH)) == NAMES_BOTH.provided.value
  {
    assert Owned(BOTH_NAMES, {}) == {};
    assert forall name :: !HookOwned(BOTH_NAMES, {}, name);
  }

  lemma RoutedPlainly(hooks: Values, provided: Values, both: Values)
    requires provided == map[]
    ensures hooks + provided + Channelled({}, both) == hooks
  {
    assert {} * both.Keys == {};
  }

  /** A name on a server channel is no argument and no seed where none of those is one. */
  lemma ChannelsNameNoArgument(seat: Seat, author: Author, name: string)
    requires Injective(seat.wire) && Routing(seat, author).Routed? && name in Routing(seat, author).rest
    requires forall taken :: taken in seat.names || taken in seat.seeded ==> !(SERVER_CHANNEL <= taken)
    ensures name !in seat.names && name !in seat.seeded
  {
    if !(SERVER_CHANNEL <= name) {
      RestNamesNoArgument(seat, author, name);
    }
  }

  /** The same author, without one hook's key. */
  function WithoutHook(author: Author, key: string): Author {
    author.(hooks := author.hooks - {key})
  }

  /** A hook's key is another name of a value the typed provider owns: the key itself, the wire name of the field
      whose `source` it is, or the `source` of the field whose wire name it is. */
  ghost predicate NamesAnOwned(seat: Seat, filled: set<string>, key: string) {
    exists owned :: owned in filled && owned !in seat.shadowed &&
      (owned == key || Wires(seat.wire, owned, key) || Wires(seat.wire, key, owned))
  }

  predicate Wires(wire: map<string, string>, source: string, name: string) {
    source in wire && wire[source] == name
  }

  /** A hook's value is used exactly where its key names no seed and no value the typed provider owns, which it does
      whether or not the provider answers it. */
  lemma HooksUsedExactly(seat: Seat, author: Author, key: string)
    ensures key in Hooks(seat, author) <==>
            key in author.hooks && key !in seat.seeded && !NamesAnOwned(seat, author.filled, key)
    ensures key in Hooks(seat, author) ==> Hooks(seat, author)[key] == author.hooks[key]
  {
    var owned := Owned(seat, author.filled);
    if NamesAnOwned(seat, author.filled, key) {
      var o :| o in author.filled && o !in seat.shadowed
        && (o == key || Wires(seat.wire, o, key) || Wires(seat.wire, key, o));
      assert o in owned;
    }
  }

  /** So a hook naming a value the typed provider owns changes nothing of the call, even where the provider declines
      it. */
  lemma AnOwnedNamesHookIsDropped(seat: Seat, author: Author, key: string, arguments: Values)
    requires Injective(seat.wire) && (key in seat.seeded || NamesAnOwned(seat, author.filled, key))
    ensures Routing(seat, author) == Routing(seat, WithoutHook(author, key))
    ensures RoutedArguments(seat, author, arguments) == RoutedArguments(seat, WithoutHook(author, key), arguments)
  {
    OwnedHookIsUnused(seat, author, key);
    SameHooksSameCall(seat, author, WithoutHook(author, key), arguments);
  }

  lemma OwnedHookIsUnused(seat: Seat, author: Author, key: string)
    requires key in seat.seeded || NamesAnOwned(seat, author.filled, key)
    ensures Hooks(seat, author) == Hooks(seat, WithoutHook(author, key))
  {
    HooksUsedExactly(seat, author, key);
  }

  lemma SameHooksSameCall(seat: Seat, author: Author, other: Author, arguments: Values)
    requires Injective(seat.wire) && Hooks(seat, author) == Hooks(seat, other)
    requires author.provided == other.provided && author.filled == other.filled
    ensures Routing(seat, author) == Routing(seat, other)
    ensures RoutedArguments(seat, author, arguments) == RoutedArguments(seat, other, arguments)
  {
  }

  /** The same author, declining one more key. */
  function Declining(author: Author, key: string): Author
    requires author.provided.Some?
  {
    author.(provided := Some(author.provided.value[key := Unset]))
  }

  /** Whether declining `key` is the same as not naming it: no filter reads the name, or the hooks decline it
      too. Beside a filter the sentinel itself is handed on. */
  ghost predicate DeclinesFreely(seat: Seat, author: Author, key: string) {
    || (key !in seat.shadowed && key !in seat.filtered)
    || (key in Hooks(seat, author) && Hooks(seat, author)[key] == Unset)
  }

  /** A provider that names no seed, and has nothing to say of `key`, which is none either. */
  ghost predicate Silent(seat: Seat, author: Author, key: string) {
    && Injective(seat.wire) && author.provided.Some? && !NamesASeed(seat, author)
    && key !in author.provided.value && key !in seat.seeded
  }

  /** A key the provider answers `UNSET` changes nothing at all exactly there. */
  lemma DeclinedKeyChangesNothing(seat: Seat, author: Author, key: string)
    requires Silent(seat, author, key)
    ensures Routing(seat, Declining(author, key)) == Routing(seat, author) <==> DeclinesFreely(seat, author, key)
  {
    DecliningNamesNoSeed(seat, author, key);
    DecliningAnswersUnset(seat, author, key);
    if DeclinesFreely(seat, author, key) {
      DecliningFreelyRoutesTheSame(seat, author, key);
    } else {
      SentinelIsHandedOn(seat, author, Declining(author, key), key);
    }
  }

  /** A selector's filter reads `q`, and its provider has nothing to say of anything. */
  const READS_Q := Seat({"q"}, {}, map[], {}, {}, {"q"})
  const SAYS_NOTHING := Author(map[], Some(map[]), {})

  /** There, declining `q` hands the callables the sentinel beside the filter, where saying nothing hands none. */
  lemma ADeclinedFilterNameIsHandedOn()
    ensures Silent(READS_Q, SAYS_NOTHING, "q")
    ensures Routing(READS_Q, SAYS_NOTHING).Routed? && Routing(READS_Q, SAYS_NOTHING).beside == map[]
    ensures Routing(READS_Q, Declining(SAYS_NOTHING, "q")).Routed?
    ensures Routing(READS_Q, Declining(SAYS_NOTHING, "q")).beside == map["q" := Unset]
  {
    DecliningNamesNoSeed(READS_Q, SAYS_NOTHING, "q");
    assert Both(READS_Q, SAYS_NOTHING) == map[];
    DecliningAnswersUnset(READS_Q, SAYS_NOTHING, "q");
  }

  /** No argument is any different for it. */
  lemma DeclinedKeyChangesNoArgument(seat: Seat, author: Author, key: string, arguments: Values)
    requires Silent(seat, author, key)
    ensures RoutedArguments(seat, Declining(author, key), arguments) == RoutedArguments(seat, author, arguments)
  {
    DecliningSplitsTheSame(seat, author, key);
  }

  lemma DecliningSplitsTheSame(seat: Seat, author: Author, key: string)
    requires Silent(seat, author, key)
    ensures ProvidedSplit(seat, Declining(author, key)) == ProvidedSplit(seat, author)
  {
    var provided := author.provided.value;
    var with', without := ProvidedSplitValues(seat, provided[key := Unset]), ProvidedSplitValues(seat, provided);
    assert with' - {key} == without - {key} == without;
    DeclinedKeysSplitNothing(seat.names, seat.wire, with', {key});
  }

  lemma DecliningNamesNoSeed(seat: Seat, author: Author, key: string)
    requires Silent(seat, author, key)
    ensures !NamesASeed(seat, Declining(author, key))
  {
    var provided := author.provided.value;
    assert provided[key := Unset].Keys * seat.seeded == provided.Keys * seat.seeded;
  }

  lemma DecliningAnswersUnset(seat: Seat, author: Author, key: string)
    requires Silent(seat, author, key)
    ensures Both(seat, Declining(author, key)) == Both(seat, author)[key := Unset]
  {
  }

  lemma DecliningFreelyRoutesTheSame(seat: Seat, author: Author, key: string)
    requires Silent(seat, author, key) && DeclinesFreely(seat, author, key)
    ensures Routing(seat, Declining(author, key)) == Routing(seat, author)
  {
    DecliningNamesNoSeed(seat, author, key);
    DecliningSplitsTheSame(seat, author, key);
    DecliningAnswersUnset(seat, author, key);
    SameFilterValues(seat, Both(seat, author), Both(seat, Declining(author, key)), key);
  }

  lemma SameFilterValues(seat: Seat, was: Values, both: Values, key: string)
    requires both == was[key := Unset]
    requires (key !in seat.shadowed && key !in seat.filtered) || (key in was && was[key] == Unset)
    ensures Channelled(seat.shadowed, both) == Channelled(seat.shadowed, was)
    ensures AtNames(both, seat.filtered) == AtNames(was, seat.filtered)
  {
    if key in was && was[key] == Unset {
      assert both == was;
    } else {
      SameOnChannel(seat.shadowed, was, key);
    }
  }

  lemma SameOnChannel(shadowed: set<string>, was: Values, key: string)
    requires key !in shadowed
    ensures Channelled(shadowed, was[key := Unset]) == Channelled(shadowed, was)
  {
    var both := was[key := Unset];
    assert shadowed * both.Keys == shadowed * was.Keys;
    forall k | k in ServerChannels(shadowed * was.Keys)
        ensures both[k[|SERVER_CHANNEL|..]] == was[k[|SERVER_CHANNEL|..]] {
    }
  }

  /** Where a filter reads the name, the sentinel is handed on, on the channel or beside the filter. */
  lemma SentinelIsHandedOn(seat: Seat, author: Author, told: Author, key: string)
    requires Injective(seat.wire) && Routing(seat, author).Routed? && Routing(seat, told).Routed?
    requires key in seat.shadowed || key in seat.filtered
    requires key in Both(seat, told) && Both(seat, told)[key] == Unset
    requires key in Both(seat, author) ==> Both(seat, author)[key] != Unset
    ensures Routing(seat, told) != Routing(seat, author)
  {
    if key in seat.shadowed {
      DeclinedOnChannel(seat, told, key);
      NothingUnsetOnChannel(seat, author, key);
    } else {
      assert key in Routing(seat, told).beside && Routing(seat, told).beside[key] == Unset;
    }
  }

  lemma DeclinedOnChannel(seat: Seat, author: Author, key: string)
    requires Injective(seat.wire) && Routing(seat, author).Routed? && key in seat.shadowed
    requires key in Both(seat, author) && Both(seat, author)[key] == Unset
    ensures var rest := Routing(seat, author).rest; ServerChannel(key) in rest && rest[ServerChannel(key)] == Unset
  {
    assert key in seat.shadowed * Both(seat, author).Keys;
    assert ServerChannel(key)[|SERVER_CHANNEL|..] == key;
    assert ServerChannel(key) in Channelled(seat.shadowed, Both(seat, author));
  }

  /** With nothing declined, no channel holds the sentinel. */
  lemma NothingUnsetOnChannel(seat: Seat, author: Author, key: string)
    requires Injective(seat.wire) && Routing(seat, author).Routed?
    requires key in Both(seat, author) ==> Both(seat, author)[key] != Unset
    ensures var rest := Routing(seat, author).rest; ServerChannel(key) in rest ==> rest[ServerChannel(key)] != Unset
  {
    var k := ServerChannel(key);
    assert k[|SERVER_CHANNEL|..] == key;
    if k !in Channelled(seat.shadowed, Both(seat, author)) {
      if k in ProvidedSplit(seat, author).rest {
        RestIsLeft(seat.names, seat.wire, ProvidedSplitValues(seat, Provided(author)), k);
      } else if k in HookSplit(seat, author).rest {
        RestIsLeft(seat.names, seat.wire, HookSplitValues(seat, Hooks(seat, author)), k);
      }
    }
  }

  /** The same author, a hook declining one more key. */
  function HookDeclining(author: Author, key: string): Author {
    author.(hooks := author.hooks[key := Unset])
  }

  /** Whether a hook's `UNSET` is the same as no hook's value: the call is refused for a seed, the hook's value
      is dropped for the seed or the provider it stands against, no filter reads the name, or the provider answers
      over it. */
  ghost predicate HookDeclinesFreely(seat: Seat, author: Author, key: string) {
    || NamesASeed(seat, author)
    || key in seat.seeded || NamesAnOwned(seat, author.filled, key)
    || (key !in seat.shadowed && key !in seat.filtered)
    || key in Provided(author)
  }

  /** A key a hook answers `UNSET` changes nothing at all exactly there. */
  lemma HooksDeclinedKeyChangesNothing(seat: Seat, author: Author, key: string)
    requires Injective(seat.wire) && key !in author.hooks
    ensures Routing(seat, HookDeclining(author, key)) == Routing(seat, author)
       <==> HookDeclinesFreely(seat, author, key)
  {
    var told := HookDeclining(author, key);
    HooksUsedExactly(seat, told, key);
    HookDecliningSplitsTheSame(seat, author, key);
    HookDecliningAnswers(seat, author, key);
    if key !in seat.shadowed && key !in seat.filtered && Both(seat, told) != Both(seat, author) {
      SameFilterValues(seat, Both(seat, author), Both(seat, told), key);
    }
    if !HookDeclinesFreely(seat, author, key) {
      SentinelIsHandedOn(seat, author, told, key);
    }
  }

  /** No argument is any different for it, whatever filter reads the name. */
  lemma HooksDeclinedKeyChangesNoArgument(seat: Seat, author: Author, key: string, arguments: Values)
    requires Injective(seat.wire) && key !in author.hooks
    ensures RoutedArguments(seat, HookDeclining(author, key), arguments) == RoutedArguments(seat, author, arguments)
  {
    HookDecliningSplitsTheSame(seat, author, key);
  }

  lemma HookDecliningSplitsTheSame(seat: Seat, author: Author, key: string)
    requires Injective(seat.wire) && key !in author.hooks
    ensures HookSplit(seat, HookDeclining(author, key)) == HookSplit(seat, author)
    ensures ProvidedSplit(seat, HookDeclining(author, key)) == ProvidedSplit(seat, author)
  {
    var with' := HookSplitValues(seat, Hooks(seat, HookDeclining(author, key)));
    var without := HookSplitValues(seat, Hooks(seat, author));
    assert with' - {key} == without;
    DeclinedKeysSplitNothing(seat.names, seat.wire, with', {key});
  }

  lemma HookDecliningAnswers(seat: Seat, author: Author, key: string)
    requires key !in author.hooks
    ensures var dropped := key in seat.seeded || HookOwned(seat, author.filled, key) || key in Provided(author);
            && key !in Hooks(seat, author)
            && Both(seat, HookDeclining(author, key))
               == if dropped then Both(seat, author) else Both(seat, author)[key := Unset]
  {
  }
}
