/**
  A single call of a service with an input serializer: the body its Validator binds,
  the values the server put into it, the seeds of a target lookup's hidden keys, and
  what the service is handed under the names the server owns.
*/
module InputCall {
  import opened Prelude
  import opened AuthorValues
  import opened Channels
  import opened SelectorCall
  import BundledService
  import ServerValues

  type Tree = ServerValues.Tree

  /** Its serializer, the names its reads and its Validator's fields take, each `source`'s wire name, the names a
      callable of the call marks `NotClientInput`, the keys its `kwargs` provider is annotated to fill, and an
      argument's value as a field takes it. */
  datatype InputService = InputService(serializer: ServerValues.Serializer, readNames: set<string>, fields: set<string>,
                                       wire: map<string, string>, marked: set<string>, filled: set<string>,
                                       asTree: Value -> Tree)

  /** What registering the spec refuses: a declared read a callable marks, and a read named like a field. */
  ghost predicate RegistersInput(s: InputService) {
    s.readNames !! s.marked && s.readNames !! s.fields && Injective(s.wire)
  }

  function InputSeat(e: Edge, s: InputService): Seat {
    Seat(s.readNames + s.fields, s.fields, s.wire, Reserved(e), {}, {})
  }

  /** One call prepared: its arguments, the keys the authors gave them under, the values put into the body, and
      the authors' values no argument took. */
  datatype BodyCall = BodyCall(arguments: Values, authored: map<string, string>, put: Values,
                               author: BundledService.Seated)

  function BodyCallOf(routed: Values, authored: map<string, string>, rest: Values, server: Values): BodyCall {
    var arguments := routed + server;
    BodyCall(arguments, authored, Restrict(arguments, authored.Keys + server.Keys),
             BundledService.SeatAuthorValues(rest))
  }

  ghost function PrepareInput(e: Edge, s: InputService, received: Values, author: Author,
                              server: Values): Option<BodyCall>
    requires Injective(s.wire)
  {
    match Routing(InputSeat(e, s), author)
    case SeedRefused(_) => None
    case Routed(rest, authored, _) => Some(BodyCallOf(RoutedArguments(InputSeat(e, s), author, received), authored,
                                                      rest, server))
  }

  /** Both authors' values, then `input_data`, over the arguments, as it runs. */
  method PutServerValues(e: Edge, s: InputService, arguments: Arguments, author: Author,
                         server: Values) returns (prepared: Option<BodyCall>)
    requires Injective(s.wire)
    modifies arguments
    ensures prepared == PrepareInput(e, s, old(arguments.values), author, server)
    ensures prepared.Some? ==> arguments.values == prepared.value.arguments
  {
    var outcome := RouteAuthorValues(InputSeat(e, s), author, arguments);
    if outcome.SeedRefused? {
      return None;
    }
    prepared := Some(BodyCallOf(arguments.values, outcome.authored, outcome.rest, server));
    arguments.values := arguments.values + server;
  }

  // --- the body the Validator binds

  /** `same` names the arguments that are still the very objects sent, which only equal ones can be. */
  ghost predicate StillSent(sent: Values, arguments: Values, same: set<string>) {
    forall name :: name in same ==> name in sent && name in arguments && arguments[name] == sent[name]
  }

  /** The fields the edge added or replaced, over what the caller sent. */
  function Put(arguments: Values, fields: set<string>, same: set<string>): Values {
    Restrict(arguments, fields - same)
  }

  /** The caller's params as they are where nothing was put, and otherwise those with what was put over them, a
      form's written as the values of its name. */
  function ValidatorBody(c: Coercion, params: Params, arguments: Values, fields: set<string>,
                         same: set<string>): Params
    requires !params.NoObject?
  {
    var put := Put(arguments, fields, same);
    match params
    case Mapping(values) => Mapping(values + put)
    case Form(query) => Form(query + Listed(c, put))
  }

  /** A field holds what the edge left as its argument, where a mapping's arguments are its own; one whose argument
      the edge took keeps the client's value; a form's name keeps its own values unless another object was put
      there, an equal one included; and nothing but a field is written. */
  lemma BodyHoldsWhatIsPut(c: Coercion, params: Params, sent: Values, arguments: Values, fields: set<string>,
                           same: set<string>, name: string)
    requires !params.NoObject? && StillSent(sent, arguments, same)
    ensures params.Mapping? && Lookup(params.values, name) == Lookup(sent, name) ==>
      Lookup(ValidatorBody(c, params, arguments, fields, same).values, name)
      == if name in fields && name in arguments then Some(arguments[name]) else Lookup(params.values, name)
    ensures params.Form? ==>
      var form := ValidatorBody(c, params, arguments, fields, same).query;
      var written := name in fields && name in arguments && name !in same;
      && (name in form <==> written || name in params.query)
      && (name in form ==> form[name] == if written then c.listed(arguments[name]) else params.query[name])
    ensures Put(arguments, fields, same) == map[] ==> ValidatorBody(c, params, arguments, fields, same) == params
  {
    if params.Mapping? {
      SumAt(params.values, Put(arguments, fields, same), name);
      assert params.values + map[] == params.values;
    } else {
      assert Listed(c, map[]) == map[] && params.query + map[] == params.query;
    }
  }

  // --- a target lookup's hidden keys

  /** The names a lookup hides that the route captures and nothing else fills; `keys` are those its own provider
      may answer, any name where it says nothing of them. */
  function LookupCaptures(hidden: set<string>, reserved: set<string>, keys: Option<set<string>>,
                          route: Option<Values>): set<string> {
    if keys.None? then {} else (hidden - reserved - keys.value) * Keys(route)
  }

  /** Each such name that is no parameter is seeded: with an author's value, which leaves the extras, else with
      the route's. */
  function LookupSeeds(names: set<string>, route: Option<Values>, extra: Values): Values {
    Captures(route, names) + Restrict(extra, names * Keys(route))
  }

  method HiddenLookupSeeds(names: set<string>, route: Option<Values>, extra: Arguments) returns (seeds: Values)
    requires names <= Keys(route)
    modifies extra
    ensures seeds == LookupSeeds(names, route, old(extra.values)) && extra.values == old(extra.values) - names
  {
    var pending := names;
    seeds := map[];
    while pending != {}
      invariant pending <= names
      invariant extra.values == old(extra.values) - (names - pending)
      invariant seeds.Keys == names - pending
      invariant forall name :: name in seeds ==>
        Some(seeds[name]) == Lookup(LookupSeeds(names, route, old(extra.values)), name)
      decreases pending
    {
      var name :| name in pending;
      SeedAt(names, route, old(extra.values), name);
      if name in extra.values {
        seeds := seeds[name := extra.values[name]];
        extra.values := extra.values - {name};
      } else {
        seeds := seeds[name := route.value[name]];
      }
      pending := pending - {name};
    }
    assert names - pending == names;
    SeedNames(names, route, old(extra.values));
  }

  lemma SeedAt(names: set<string>, route: Option<Values>, extra: Values, name: string)
    requires names <= Keys(route) && name in names
    ensures Lookup(LookupSeeds(names, route, extra), name)
        == Some(if name in extra then extra[name] else route.value[name])
  {
  }

  lemma SeedNames(names: set<string>, route: Option<Values>, extra: Values)
    requires names <= Keys(route)
    ensures LookupSeeds(names, route, extra).Keys == names
  {
  }

  /** A name so seeded has one source in the call: the seed, which is the author's value else the route's, and is
      no extra, no parameter and no seed the call had. */
  lemma OneSourcePerHiddenKey(hidden: set<string>, reserved: set<string>, keys: Option<set<string>>,
                              route: Option<Values>,
                              parameters: set<string>, extra: Values, name: string)
    ensures var names := LookupCaptures(hidden, reserved, keys, route) - parameters;
            var seeds, left := LookupSeeds(names, route, extra), extra - names;
            && (name in seeds <==>
                  && name in hidden && name !in reserved && name !in parameters
                  && keys.Some? && name !in keys.value && route.Some? && name in route.value)
            && (name in seeds ==> name !in left && name !in parameters && name !in reserved)
            && (name in seeds ==> Lookup(seeds, name) == Or(Lookup(extra, name), Lookup(Captures(route, {name}), name)))
            && (name !in seeds ==> Lookup(left, name) == Lookup(extra, name))
  {
  }

  // --- what the service is handed

  function Treed(s: InputService, values: Values): map<string, Tree> {
    map name | name in values :: s.asTree(values[name])
  }

  /** What the Validator is given for the call. */
  function ValidatorCall(e: Edge, s: InputService, prepared: BodyCall): ServerValues.Call {
    ServerValues.Call(Treed(s, prepared.put), prepared.authored, s.marked, s.filled, Reserved(e) + {"serializer"})
  }

  /** The kernel's pool for the service: the overlay, the Validator's values, the arguments its reads name, the
      `kwargs` seat's values and the seeds, each over those before it. */
  function ServicePool(s: InputService, prepared: BodyCall, values: map<string, Tree>,
                       seeds: map<string, Tree>): map<string, Tree> {
    Treed(s, prepared.author.overlay) + values + Treed(s, Restrict(prepared.arguments, s.readNames))
        + Treed(s, prepared.author.seated) + seeds
  }

  /** An argument an author gave is the author's value alone. */
  lemma AuthoredIsRouted(seat: Seat, author: Author, arguments: Values)
    requires Injective(seat.wire) && Routing(seat, author).Routed?
    ensures var given := HookSplit(seat, author).routed + ProvidedSplit(seat, author).routed;
            && given.Keys == Routing(seat, author).authored.Keys
            && forall name :: name in given ==>
                 Lookup(RoutedArguments(seat, author, arguments), name) == Some(given[name])
  {
    SplitOfIsSplit(seat.names, seat.wire, HookSplitValues(seat, Hooks(seat, author)));
    SplitOfIsSplit(seat.names, seat.wire, ProvidedSplitValues(seat, Provided(author)));
  }

  lemma PutAlike(one: Values, two: Values, authored: map<string, string>, rest: Values, server: Values)
    requires forall name :: name in authored ==> Lookup(one, name) == Lookup(two, name)
    ensures BodyCallOf(one, authored, rest, server).put == BodyCallOf(two, authored, rest, server).put
  {
    assert forall name :: name in authored ==>
      (name in one <==> name in two) && (name in one ==> one[name] == two[name]);
  }

  /** What the server puts into the body, and the authors' values beside the arguments, are the same whatever the
      client's arguments are. */
  lemma PutIsTheServers(e: Edge, s: InputService, received: Values, other: Values, author: Author, server: Values)
    requires Injective(s.wire)
    ensures var one, two := PrepareInput(e, s, received, author, server), PrepareInput(e, s, other, author, server);
            (one.Some? <==> two.Some?)
            && (one.Some? ==>
                  && one.value.put == two.value.put && one.value.authored == two.value.authored
                      && one.value.author == two.value.author)
  {
    var seat := InputSeat(e, s);
    if Routing(seat, author).Routed? {
      AuthoredAlike(seat, author, received, other);
      PutAlike(RoutedArguments(seat, author, received), RoutedArguments(seat, author, other),
               Routing(seat, author).authored, Routing(seat, author).rest, server);
    }
  }

  lemma AuthoredAlike(seat: Seat, author: Author, received: Values, other: Values)
    requires Injective(seat.wire) && Routing(seat, author).Routed?
    ensures forall name :: name in Routing(seat, author).authored ==>
      Lookup(RoutedArguments(seat, author, received), name) == Lookup(RoutedArguments(seat, author, other), name)
  {
    AuthoredIsRouted(seat, author, received);
    AuthoredIsRouted(seat, author, other);
  }

  // --- what the server answers for a field

  /** What the authors answer an argument: the provider's value, else that of a hook that is used. */
  ghost function AuthorsAnswer(seat: Seat, author: Author, name: string): Option<Value> {
    var provided := KeyAnswering(seat.names, seat.wire, ProvidedSplitValues(seat, Provided(author)), name);
    var hooked := KeyAnswering(seat.names, seat.wire, HookSplitValues(seat, Hooks(seat, author)), name);
    if provided.Some? then Lookup(Provided(author), provided.value)
    else if hooked.Some? then Lookup(author.hooks, hooked.value)
    else None
  }

  /** The key they answer it under. */
  ghost function AuthorsKey(seat: Seat, author: Author, name: string): Option<string> {
    var provided := KeyAnswering(seat.names, seat.wire, ProvidedSplitValues(seat, Provided(author)), name);
    if provided.Some? then provided
    else KeyAnswering(seat.names, seat.wire, HookSplitValues(seat, Hooks(seat, author)), name)
  }

  lemma RoutedIsTheAnswer(seat: Seat, author: Author, arguments: Values, name: string)
    requires Injective(seat.wire) && Routing(seat, author).Routed?
    ensures var routing := Routing(seat, author);
            && (name in routing.authored <==> AuthorsAnswer(seat, author, name).Some?)
            && (AuthorsAnswer(seat, author, name).Some? <==> AuthorsKey(seat, author, name).Some?)
            && (name in routing.authored ==>
                  && AuthorsKey(seat, author, name) == Some(routing.authored[name])
                  && Lookup(RoutedArguments(seat, author, arguments), name) == AuthorsAnswer(seat, author, name))
  {
    ArgumentsAnswered(seat.names, seat.wire, HookSplitValues(seat, Hooks(seat, author)), name);
    ArgumentsAnswered(seat.names, seat.wire, ProvidedSplitValues(seat, Provided(author)), name);
    RoutedAt(seat, author, arguments, name);
  }

  /** What the Validator is given for a name: `input_data`'s value, else the authors' answer, and nothing else. */
  ghost function ServersAnswer(e: Edge, s: InputService, author: Author, server: Values, name: string): Option<Value> {
    if name in server then Some(server[name]) else AuthorsAnswer(InputSeat(e, s), author, name)
  }

  /** The key an author gave an argument under, where one did. */
  function KeyGiven(authored: map<string, string>, name: string): Option<string> {
    if name in authored then Some(authored[name]) else None
  }

  lemma PreparedWhereRouted(e: Edge, s: InputService, received: Values, author: Author, server: Values)
    requires Injective(s.wire)
    ensures var seat := InputSeat(e, s);
            PrepareInput(e, s, received, author, server)
            == if Routing(seat, author).SeedRefused? then None
               else Some(BodyCallOf(RoutedArguments(seat, author, received), Routing(seat, author).authored,
                                    Routing(seat, author).rest, server))
  {
  }

  lemma PutExactly(e: Edge, s: InputService, received: Values, author: Author, server: Values, name: string)
    requires Injective(s.wire)
    ensures var call := PrepareInput(e, s, received, author, server);
            call.Some? ==>
              && Lookup(call.value.put, name) == ServersAnswer(e, s, author, server, name)
              && KeyGiven(call.value.authored, name) == AuthorsKey(InputSeat(e, s), author, name)
  {
    var seat := InputSeat(e, s);
    PreparedWhereRouted(e, s, received, author, server);
    if Routing(seat, author).Routed? {
      RoutedIsTheAnswer(seat, author, received, name);
      PutAt(RoutedArguments(seat, author, received), Routing(seat, author).authored, Routing(seat, author).rest, server,
            name);
    }
  }

  lemma PutAt(routed: Values, authored: map<string, string>, rest: Values, server: Values, name: string)
    requires name in authored ==> name in routed
    ensures Lookup(BodyCallOf(routed, authored, rest, server).put, name)
         == if name in server then Some(server[name]) else if name in authored then Some(routed[name]) else None
    ensures BodyCallOf(routed, authored, rest, server).authored == authored
  {
  }

  lemma PoolsAlikeAt(s: InputService, one: BodyCall, two: BodyCall, values: map<string, Tree>,
                     others: map<string, Tree>,
                     seeds: map<string, Tree>, name: string)
    requires one.author == two.author && TreeAt(values, name) == TreeAt(others, name)
    requires name in s.readNames ==> Lookup(one.arguments, name) == Lookup(two.arguments, name)
    ensures TreeAt(ServicePool(s, one, values, seeds), name) == TreeAt(ServicePool(s, two, others, seeds), name)
  {
  }

  /** The client's value for a key the provider owns is no read's argument. */
  lemma OwnedReadsAreTheAuthors(e: Edge, s: InputService, received: Values, other: Values, author: Author,
                                server: Values, name: string)
    requires RegistersInput(s) && author.filled == s.filled && name in s.filled && name in s.readNames
    ensures var one, two := PrepareInput(e, s, received, author, server), PrepareInput(e, s, other, author, server);
            one.Some? && two.Some? ==> Lookup(one.value.arguments, name) == Lookup(two.value.arguments, name)
  {
    if Routing(InputSeat(e, s), author).Routed? {
      OwnedAlike(InputSeat(e, s), author, received, other, name);
      ArgumentsOf(e, s, received, author, server, name);
      ArgumentsOf(e, s, other, author, server, name);
    }
  }

  /** An argument of the prepared call: the server's input, else what both authors left of it. */
  lemma ArgumentsOf(e: Edge, s: InputService, received: Values, author: Author, server: Values, name: string)
    requires Injective(s.wire) && Routing(InputSeat(e, s), author).Routed?
    ensures PrepareInput(e, s, received, author, server).Some?
    ensures Lookup(PrepareInput(e, s, received, author, server).value.arguments, name)
         == Or(Lookup(server, name), Lookup(RoutedArguments(InputSeat(e, s), author, received), name))
  {
    SumAt(RoutedArguments(InputSeat(e, s), author, received), server, name);
  }

  lemma OwnedAlike(seat: Seat, author: Author, received: Values, other: Values, name: string)
    requires Injective(seat.wire) && name in author.filled && name !in seat.shadowed && name !in seat.fields
    ensures Lookup(RoutedArguments(seat, author, received), name) == Lookup(RoutedArguments(seat, author, other), name)
  {
    OwnedIsTaken(seat, author, received, name);
    OwnedIsTaken(seat, author, other, name);
  }

  lemma OwnedIsTaken(seat: Seat, author: Author, received: Values, name: string)
    requires Injective(seat.wire) && name in Owned(seat, author.filled) - seat.fields
    ensures Lookup(RoutedArguments(seat, author, received), name)
         == Or(Lookup(ProvidedSplit(seat, author).routed, name), Lookup(HookSplit(seat, author).routed, name))
  {
    RoutedAt(seat, author, received, name);
  }

  /** What a call hands the service, where its providers name no seed and its Validator accepts `body`. */
  ghost function HandedTo(e: Edge, s: InputService, received: Values, author: Author, server: Values,
                          body: ServerValues.Body, seeds: map<string, Tree>): Option<map<string, Tree>>
    requires Injective(s.wire)
  {
    match PrepareInput(e, s, received, author, server)
    case None => None
    case Some(call) =>
      match ServerValues.Validate(s.serializer, ValidatorCall(e, s, call), body)
      case Validated(values, _) => Some(ServicePool(s, call, values, seeds))
      case _ => None
  }

  ghost predicate Agree(one: Option<map<string, Tree>>, two: Option<map<string, Tree>>, name: string) {
    (one.Some? <==> two.Some?) && (one.Some? ==> TreeAt(one.value, name) == TreeAt(two.value, name))
  }

  /** The names a field's value is handed under: its `source` where that is one key, else its own, and the key an
      author gave it under. */
  predicate HandedUnder(f: ServerValues.Field, key: Option<string>, parameter: string) {
    || parameter == (if |f.attrs| == 1 then f.attrs[0] else f.name)
    || Some(parameter) == key
  }

  /** No other field's value is handed under a name. */
  ghost predicate NoOthers(e: Edge, s: InputService, author: Author, f: ServerValues.Field, parameter: string) {
    forall g :: g in s.serializer.fields && g.name != f.name ==>
        !HandedUnder(g, AuthorsKey(InputSeat(e, s), author, g.name), parameter)
  }

  /** No seed, read or author's value of that very name is handed in its place. */
  ghost predicate NothingOver(e: Edge, s: InputService, author: Author, seeds: map<string, Tree>, parameter: string)
    requires Injective(s.wire)
  {
    && parameter !in seeds && parameter !in Reserved(e) + {"serializer"} && parameter !in s.readNames
    && (Routing(InputSeat(e, s), author).Routed? ==> parameter !in Routing(InputSeat(e, s), author).rest)
  }

  /** The server's value is the service's. What `input_data` answers for a field, else an author, is judged by that
      field, and where the call is not refused the judged value is handed to the service under each name the field's
      value is handed under. */
  lemma ServersValueReachesTheService(e: Edge, s: InputService, received: Values, author: Author, server: Values,
                                      body: ServerValues.Body, seeds: map<string, Tree>, f: ServerValues.Field,
                                      parameter: string)
    requires RegistersInput(s) && ServerValues.NamesApart(s.serializer.fields)
    requires f in s.serializer.fields && !f.readOnly && ServersAnswer(e, s, author, server, f.name).Some?
    requires HandedUnder(f, AuthorsKey(InputSeat(e, s), author, f.name), parameter)
    requires NoOthers(e, s, author, f, parameter) && NothingOver(e, s, author, seeds, parameter)
    ensures var judged :=
              ServerValues.Judged(f, s.asTree(ServersAnswer(e, s, author, server, f.name).value), body.form);
            var handed := HandedTo(e, s, received, author, server, body, seeds);
            && (judged.Refused? ==> handed.None?)
            && (handed.Some? && judged.Accepted? ==> TreeAt(handed.value, parameter) == Some(judged.value))
  {
    if Routing(InputSeat(e, s), author).Routed? {
      HandedWhereRouted(e, s, received, author, server, body, seeds);
      var call := PrepareInput(e, s, received, author, server).value;
      PutExactly(e, s, received, author, server, f.name);
      OthersApart(e, s, received, author, server, f, parameter);
      PutIsJudged(e, s, call, body, f, parameter);
      var verdict := ServerValues.Validate(s.serializer, ValidatorCall(e, s, call), body);
      if verdict.Validated? && parameter in verdict.values {
        PreparedWhereRouted(e, s, received, author, server);
        NothingOverAt(e, s, call, author, verdict.values, seeds, parameter);
      }
    }
  }

  lemma OthersApart(e: Edge, s: InputService, received: Values, author: Author, server: Values, f: ServerValues.Field,
                    parameter: string)
    requires Injective(s.wire) && PrepareInput(e, s, received, author, server).Some?
    requires NoOthers(e, s, author, f, parameter)
    ensures var authored := PrepareInput(e, s, received, author, server).value.authored;
            forall g :: g in s.serializer.fields && g.name != f.name ==>
              !HandedUnder(g, KeyGiven(authored, g.name), parameter)
  {
    var authored := PrepareInput(e, s, received, author, server).value.authored;
    forall g | g in s.serializer.fields && g.name != f.name
      ensures !HandedUnder(g, KeyGiven(authored, g.name), parameter)
    {
      PutExactly(e, s, received, author, server, g.name);
    }
  }

  lemma PutIsJudged(e: Edge, s: InputService, call: BodyCall, body: ServerValues.Body, f: ServerValues.Field,
                    parameter: string)
    requires f in s.serializer.fields && f.name in call.put && !f.readOnly
    requires ServerValues.NamesApart(s.serializer.fields) && parameter !in Reserved(e) + {"serializer"}
    requires HandedUnder(f, KeyGiven(call.authored, f.name), parameter)
    requires forall g :: g in s.serializer.fields && g.name != f.name ==>
      !HandedUnder(g, KeyGiven(call.authored, g.name), parameter)
    ensures var judged := ServerValues.Judged(f, s.asTree(call.put[f.name]), body.form);
            var verdict := ServerValues.Validate(s.serializer, ValidatorCall(e, s, call), body);
            && (judged.Refused? ==> !verdict.Validated?)
            && (verdict.Validated? && judged.Accepted? ==> TreeAt(verdict.values, parameter) == Some(judged.value))
  {
    JudgedIsHanded(s.serializer, ValidatorCall(e, s, call), body, f, parameter);
  }

  /** Of one Validator's call: an accepted value is handed under each name its field alone claims, and a refused one
      refuses the call. */
  lemma JudgedIsHanded(s: ServerValues.Serializer, call: ServerValues.Call, body: ServerValues.Body,
                       f: ServerValues.Field, parameter: string)
    requires f in s.fields && f.name in call.put && !f.readOnly && ServerValues.NamesApart(s.fields)
    requires HandedUnder(f, KeyGiven(call.authored, f.name), parameter)
    requires forall g :: g in s.fields && g.name != f.name ==>
      !HandedUnder(g, KeyGiven(call.authored, g.name), parameter)
    requires parameter !in call.seeded
    ensures var judged := ServerValues.Judged(f, call.put[f.name], body.form);
            var verdict := ServerValues.Validate(s, call, body);
            && (judged.Refused? ==> !verdict.Validated?)
            && (verdict.Validated? && judged.Accepted? ==> TreeAt(verdict.values, parameter) == Some(judged.value))
  {
    var judged := ServerValues.Judged(f, call.put[f.name], body.form);
    match judged
    case Refused(detail) => ServerValues.RefusedTogether(s.fields, call.put, body.form, f.name, detail);
    case Accepted(value) =>
      var held := ServerValues.HeldOf(s.fields, call.put, body.form);
      ClaimsAreOne(s.fields, call.put, call.authored, body.form, f, parameter);
      ServerValues.HandedIsAllClaims(held, call.authored, parameter, value);
    case Skipped =>
  }

  lemma ClaimsAreOne(fields: seq<ServerValues.Field>, put: map<string, Tree>, authored: map<string, string>, form: bool,
                     f: ServerValues.Field, parameter: string)
    requires f in fields && ServerValues.Visited(f, put) && ServerValues.Judged(f, put[f.name], form).Accepted?
    requires ServerValues.NamesApart(fields) && HandedUnder(f, KeyGiven(authored, f.name), parameter)
    requires forall g :: g in fields && g.name != f.name ==> !HandedUnder(g, KeyGiven(authored, g.name), parameter)
    ensures var held := ServerValues.HeldOf(fields, put, form);
            && (exists h :: h in held && ServerValues.ClaimsParameter(h, authored, parameter))
            && forall h :: h in held && ServerValues.ClaimsParameter(h, authored, parameter) ==>
                 h.value == ServerValues.Judged(f, put[f.name], form).value
  {
    var held := ServerValues.HeldOf(fields, put, form);
    var own := ServerValues.Held(f.name, f.attrs, ServerValues.Judged(f, put[f.name], form).value);
    ServerValues.HeldExactly(fields, put, form, own);
    assert ServerValues.ClaimsParameter(own, authored, parameter);
    forall h | h in held && ServerValues.ClaimsParameter(h, authored, parameter) ensures h.value == own.value {
      ServerValues.HeldExactly(fields, put, form, h);
      var g :| g in fields && g.name == h.name && g.attrs == h.attrs
        && ServerValues.Judged(g, put[g.name], form) == ServerValues.Accepted(h.value);
      assert HandedUnder(g, KeyGiven(authored, g.name), parameter);
      OneOfAName(fields, f, g);
    }
  }

  lemma OneOfAName(fields: seq<ServerValues.Field>, f: ServerValues.Field, g: ServerValues.Field)
    requires ServerValues.NamesApart(fields) && f in fields && g in fields && f.name == g.name
    ensures f == g
  {
    var i :| 0 <= i < |fields| && fields[i] == f;
    var j :| 0 <= j < |fields| && fields[j] == g;
  }

  lemma NothingOverAt(e: Edge, s: InputService, call: BodyCall, author: Author, values: map<string, Tree>,
                      seeds: map<string, Tree>, parameter: string)
    requires Injective(s.wire) && Routing(InputSeat(e, s), author).Routed?
    requires call.author == BundledService.SeatAuthorValues(Routing(InputSeat(e, s), author).rest)
    requires NothingOver(e, s, author, seeds, parameter)
    requires parameter in values
    ensures TreeAt(ServicePool(s, call, values, seeds), parameter) == Some(values[parameter])
  {
    var rest := Routing(InputSeat(e, s), author).rest;
    assert parameter !in call.author.seated;
  }

  /** What the service is handed under a name, of what the Validator handed on: a seed; an author's value no argument
      took; for a read, what the server answers it, else the caller's value where the provider does not own it; the
      Validator's value; and last an author's value beneath what the Validator binds. */
  ghost function InputSource(e: Edge, s: InputService, caller: Option<Value>, author: Author, server: Values,
                             values: map<string, Tree>, seeds: map<string, Tree>, name: string): Option<Tree>
    requires Injective(s.wire) && Routing(InputSeat(e, s), author).Routed?
  {
    var left := Lookup(Routing(InputSeat(e, s), author).rest, name);
    var own := if name in s.filled && name !in s.fields then None else caller;
    var read := if name in s.readNames then Or(ServersAnswer(e, s, author, server, name), own) else None;
    if name in seeds then Some(seeds[name])
    else if left.Some? && name != "serializer" then Some(s.asTree(left.value))
    else if read.Some? then Some(s.asTree(read.value))
    else if name in values && name !in Reserved(e) && name != "serializer" then Some(values[name])
    else if left.Some? then Some(s.asTree(left.value))
    else None
  }

  lemma ArgumentExactly(e: Edge, s: InputService, received: Values, author: Author, server: Values, name: string)
    requires Injective(s.wire) && author.filled == s.filled && Routing(InputSeat(e, s), author).Routed?
    ensures var call := PrepareInput(e, s, received, author, server);
            call.Some?
            && Lookup(call.value.arguments, name)
               == Or(ServersAnswer(e, s, author, server, name),
                     if name in s.filled && name !in s.fields then None else Lookup(received, name))
  {
    var seat := InputSeat(e, s);
    ArgumentsOf(e, s, received, author, server, name);
    RoutedIsTheAnswer(seat, author, received, name);
    if name !in Routing(seat, author).authored {
      AuthoredIsRouted(seat, author, received);
      RoutedAt(seat, author, received, name);
    }
  }

  /** Every name the service is handed has one source. */
  lemma InputServiceHasOneSource(e: Edge, s: InputService, received: Values, author: Author, server: Values,
                                 body: ServerValues.Body, seeds: map<string, Tree>, name: string)
    requires Injective(s.wire) && author.filled == s.filled
    ensures var handed := HandedTo(e, s, received, author, server, body, seeds);
            var call := PrepareInput(e, s, received, author, server);
            handed.Some? ==>
              && Routing(InputSeat(e, s), author).Routed?
              && var verdict := ServerValues.Validate(s.serializer, ValidatorCall(e, s, call.value), body);
                 && verdict.Validated?
                 && TreeAt(handed.value, name)
                    == InputSource(e, s, Lookup(received, name), author, server, verdict.values, seeds, name)
  {
    HandedNeedsRouting(e, s, received, author, server, body, seeds);
    if HandedTo(e, s, received, author, server, body, seeds).Some? {
      HandedWhereRouted(e, s, received, author, server, body, seeds);
      var call := PrepareInput(e, s, received, author, server).value;
      var verdict := ServerValues.Validate(s.serializer, ValidatorCall(e, s, call), body);
      NoSeedIsValidated(e, s, call, body, name);
      PoolIsTheSource(e, s, received, author, server, verdict.values, seeds, name);
    }
  }

  lemma NoSeedIsValidated(e: Edge, s: InputService, call: BodyCall, body: ServerValues.Body, name: string)
    ensures var verdict := ServerValues.Validate(s.serializer, ValidatorCall(e, s, call), body);
            verdict.Validated? && name in Reserved(e) + {"serializer"} ==> name !in verdict.values
  {
  }

  lemma PoolIsTheSource(e: Edge, s: InputService, received: Values, author: Author, server: Values,
                        values: map<string, Tree>, seeds: map<string, Tree>, name: string)
    requires Injective(s.wire) && author.filled == s.filled && Routing(InputSeat(e, s), author).Routed?
    requires name in Reserved(e) + {"serializer"} ==> name !in values
    ensures var call := PrepareInput(e, s, received, author, server);
            call.Some? && TreeAt(ServicePool(s, call.value, values, seeds), name)
                       == InputSource(e, s, Lookup(received, name), author, server, values, seeds, name)
  {
    ArgumentExactly(e, s, received, author, server, name);
    SeatedOf(e, s, received, author, server);
    InputPoolAt(s, PrepareInput(e, s, received, author, server).value, Routing(InputSeat(e, s), author).rest, values,
                seeds, name);
  }

  lemma HandedNeedsRouting(e: Edge, s: InputService, received: Values, author: Author, server: Values,
                           body: ServerValues.Body, seeds: map<string, Tree>)
    requires Injective(s.wire)
    ensures HandedTo(e, s, received, author, server, body, seeds).Some? ==> Routing(InputSeat(e, s), author).Routed?
  {
    PreparedWhereRouted(e, s, received, author, server);
  }

  lemma SeatedOf(e: Edge, s: InputService, received: Values, author: Author, server: Values)
    requires Injective(s.wire) && Routing(InputSeat(e, s), author).Routed?
    ensures var call := PrepareInput(e, s, received, author, server);
            call.Some? && call.value.author == BundledService.SeatAuthorValues(Routing(InputSeat(e, s), author).rest)
  {
    PreparedWhereRouted(e, s, received, author, server);
  }

  lemma InputPoolAt(s: InputService, call: BodyCall, rest: Values, values: map<string, Tree>, seeds: map<string, Tree>,
                    name: string)
    requires call.author == BundledService.SeatAuthorValues(rest)
    ensures TreeAt(ServicePool(s, call, values, seeds), name)
         == if name in seeds then Some(seeds[name])
            else if name in rest && name != "serializer" then Some(s.asTree(rest[name]))
            else if name in s.readNames && name in call.arguments then Some(s.asTree(call.arguments[name]))
            else if name in values then Some(values[name])
            else if name in rest then Some(s.asTree(rest[name]))
            else None
  {
  }

  /** A name the server owns: marked, the typed provider's, or the first key of the `source` of a field so named. */
  ghost predicate IsOwned(s: InputService, name: string) {
    ServerValues.IsServers(s.serializer, ServerValues.Call(map[], map[], s.marked, s.filled, {}), name)
  }

  /** A read that is the client's to fill: one the provider does not own, no author or `input_data` fills in this
      call, and no seed takes. */
  ghost predicate LeftToTheClient(e: Edge, s: InputService, author: Author, server: Values, seeds: map<string, Tree>,
                                  name: string)
    requires Injective(s.wire)
  {
    && name in s.readNames && name !in s.filled && name !in server && name !in seeds
    && Routing(InputSeat(e, s), author).Routed? && name !in Routing(InputSeat(e, s), author).authored
  }

  lemma RestNamesNoRead(e: Edge, s: InputService, author: Author, name: string)
    requires Injective(s.wire) && Routing(InputSeat(e, s), author).Routed? && name in s.readNames
    ensures name !in Routing(InputSeat(e, s), author).rest
  {
    var seat := InputSeat(e, s);
    assert seat.shadowed * Both(seat, author).Keys == {};
    assert Channelled(seat.shadowed, Both(seat, author)) == map[];
    if name in ProvidedSplit(seat, author).rest {
      RestIsLeft(seat.names, seat.wire, ProvidedSplitValues(seat, Provided(author)), name);
    }
    if name in HookSplit(seat, author).rest {
      RestIsLeft(seat.names, seat.wire, HookSplitValues(seat, Hooks(seat, author)), name);
    }
  }

  /** Left to the client, a read is the argument it sent. */
  lemma LeftIsAsSent(e: Edge, s: InputService, received: Values, author: Author, server: Values,
                     seeds: map<string, Tree>, name: string)
    requires Injective(s.wire) && author.filled == s.filled && LeftToTheClient(e, s, author, server, seeds, name)
    ensures var call := PrepareInput(e, s, received, author, server);
            call.Some? && Lookup(call.value.arguments, name) == Lookup(received, name)
  {
    var seat := InputSeat(e, s);
    AuthoredIsRouted(seat, author, received);
    UnauthoredAt(seat, author, received, name);
    SumAt(RoutedArguments(seat, author, received), server, name);
  }

  lemma UnauthoredAt(seat: Seat, author: Author, received: Values, name: string)
    requires Injective(seat.wire) && name !in author.filled
    requires name !in HookSplit(seat, author).routed + ProvidedSplit(seat, author).routed
    ensures Lookup(RoutedArguments(seat, author, received), name) == Lookup(received, name)
  {
    RoutedAt(seat, author, received, name);
  }

  lemma LeftInPool(e: Edge, s: InputService, received: Values, author: Author, server: Values,
                   values: map<string, Tree>,
                   seeds: map<string, Tree>, name: string)
    requires Injective(s.wire) && author.filled == s.filled && LeftToTheClient(e, s, author, server, seeds, name)
    requires name in received
    ensures var call := PrepareInput(e, s, received, author, server);
            call.Some? && TreeAt(ServicePool(s, call.value, values, seeds), name) == Some(s.asTree(received[name]))
  {
    LeftIsAsSent(e, s, received, author, server, seeds, name);
    RestNamesNoRead(e, s, author, name);
    var call := PrepareInput(e, s, received, author, server).value;
    assert name !in Treed(s, call.author.seated);
    assert name in Treed(s, Restrict(call.arguments, s.readNames));
  }

  /** A read the provider owns, or that an author or `input_data` fills, is not the client's to decide. */
  lemma FilledReadsAlike(e: Edge, s: InputService, received: Values, other: Values, author: Author, server: Values,
                         name: string)
    requires RegistersInput(s) && author.filled == s.filled && Routing(InputSeat(e, s), author).Routed?
             && name in s.readNames
    requires name in s.filled || name in server || name in Routing(InputSeat(e, s), author).authored
    ensures var one, two := PrepareInput(e, s, received, author, server), PrepareInput(e, s, other, author, server);
            one.Some? && two.Some? && Lookup(one.value.arguments, name) == Lookup(two.value.arguments, name)
  {
    var seat := InputSeat(e, s);
    AuthoredAlike(seat, author, received, other);
    SumAt(RoutedArguments(seat, author, received), server, name);
    SumAt(RoutedArguments(seat, author, other), server, name);
    if name in s.filled {
      OwnedReadsAreTheAuthors(e, s, received, other, author, server, name);
    }
  }

  lemma SeedsAlikeAt(s: InputService, one: BodyCall, two: BodyCall, values: map<string, Tree>,
                     others: map<string, Tree>,
                     seeds: map<string, Tree>, name: string)
    requires name in seeds
    ensures TreeAt(ServicePool(s, one, values, seeds), name) == TreeAt(ServicePool(s, two, others, seeds), name)
  {
  }

  /** Ownership, end to end. Two calls of the same authors' and `input_data` answers, whose bodies of one kind are
      accepted, hand the service the same value, or none, under every name the server owns, whatever the client's
      arguments are; but a read owned only through a field's `source`, left to the client, is handed as the client
      sent it. */
  lemma OwnedNamesReachTheService(e: Edge, s: InputService, received: Values, other: Values, author: Author,
                                  server: Values, body: ServerValues.Body, otherBody: ServerValues.Body,
                                  seeds: map<string, Tree>, name: string)
    requires RegistersInput(s) && author.filled == s.filled && body.form == otherBody.form && IsOwned(s, name)
    requires s.serializer.valid(body).Some? && s.serializer.valid(otherBody).Some?
    ensures var one, two := HandedTo(e, s, received, author, server, body, seeds),
            HandedTo(e, s, other, author, server, otherBody, seeds);
      && (one.Some? <==> two.Some?)
      && (!LeftToTheClient(e, s, author, server, seeds, name) ==> Agree(one, two, name))
      && (LeftToTheClient(e, s, author, server, seeds, name) && one.Some? && name in received ==>
            TreeAt(one.value, name) == Some(s.asTree(received[name])))
  {
    if Routing(InputSeat(e, s), author).Routed? {
      HandedWhereRouted(e, s, received, author, server, body, seeds);
      HandedWhereRouted(e, s, other, author, server, otherBody, seeds);
      OwnedValuesAlike(e, s, received, other, author, server, body, otherBody, name);
      var one, two := PrepareInput(e, s, received, author, server).value,
          PrepareInput(e, s, other, author, server).value;
      var verdict := ServerValues.Validate(s.serializer, ValidatorCall(e, s, one), body);
      var others := ServerValues.Validate(s.serializer, ValidatorCall(e, s, two), otherBody);
      if verdict.Validated? {
        if !LeftToTheClient(e, s, author, server, seeds, name) {
          NotLeftInPools(e, s, received, other, author, server, verdict.values, others.values, seeds, name);
        } else if name in received {
          LeftInPool(e, s, received, author, server, verdict.values, seeds, name);
        }
      }
    }
  }

  lemma HandedWhereRouted(e: Edge, s: InputService, received: Values, author: Author, server: Values,
                          body: ServerValues.Body, seeds: map<string, Tree>)
    requires Injective(s.wire) && Routing(InputSeat(e, s), author).Routed?
    ensures var call := PrepareInput(e, s, received, author, server);
            call.Some?
            && var verdict := ServerValues.Validate(s.serializer, ValidatorCall(e, s, call.value), body);
               HandedTo(e, s, received, author, server, body, seeds)
               == if verdict.Validated? then Some(ServicePool(s, call.value, verdict.values, seeds)) else None
  {
  }

  lemma OwnedValuesAlike(e: Edge, s: InputService, received: Values, other: Values, author: Author, server: Values,
                         body: ServerValues.Body, otherBody: ServerValues.Body, name: string)
    requires Injective(s.wire) && Routing(InputSeat(e, s), author).Routed? && body.form == otherBody.form
             && IsOwned(s, name)
    requires s.serializer.valid(body).Some? && s.serializer.valid(otherBody).Some?
    requires PrepareInput(e, s, received, author, server).Some? && PrepareInput(e, s, other, author, server).Some?
    ensures var one, two := PrepareInput(e, s, received, author, server).value,
            PrepareInput(e, s, other, author, server).value;
            var verdict := ServerValues.Validate(s.serializer, ValidatorCall(e, s, one), body);
            var others := ServerValues.Validate(s.serializer, ValidatorCall(e, s, two), otherBody);
      && one.author == two.author && (verdict.Validated? <==> others.Validated?)
      && (verdict.Validated? ==> TreeAt(verdict.values, name) == TreeAt(others.values, name))
  {
    PutIsTheServers(e, s, received, other, author, server);
    var one, two := PrepareInput(e, s, received, author, server).value, PrepareInput(e, s, other, author, server).value;
    assert ValidatorCall(e, s, one) == ValidatorCall(e, s, two);
    ServerValues.OwnedNamesAreTheServers(s.serializer, ValidatorCall(e, s, one), body, otherBody, name);
  }

  lemma NotLeftInPools(e: Edge, s: InputService, received: Values, other: Values, author: Author, server: Values,
                       values: map<string, Tree>, others: map<string, Tree>, seeds: map<string, Tree>, name: string)
    requires RegistersInput(s) && author.filled == s.filled && Routing(InputSeat(e, s), author).Routed?
    requires !LeftToTheClient(e, s, author, server, seeds, name) && TreeAt(values, name) == TreeAt(others, name)
    requires PrepareInput(e, s, received, author, server).Some? && PrepareInput(e, s, other, author, server).Some?
    requires PrepareInput(e, s, received, author, server).value.author
         == PrepareInput(e, s, other, author, server).value.author
    ensures var one, two := PrepareInput(e, s, received, author, server).value,
            PrepareInput(e, s, other, author, server).value;
            TreeAt(ServicePool(s, one, values, seeds), name) == TreeAt(ServicePool(s, two, others, seeds), name)
  {
    var one, two := PrepareInput(e, s, received, author, server).value, PrepareInput(e, s, other, author, server).value;
    if name in seeds {
      SeedsAlikeAt(s, one, two, values, others, seeds, name);
    } else {
      if name in s.readNames {
        FilledReadsAlike(e, s, received, other, author, server, name);
      }
      PoolsAlikeAt(s, one, two, values, others, seeds, name);
    }
  }

  /** An owned name both clients' arguments hold alike is handed alike. */
  lemma OwnedAlikeWhereSentAlike(e: Edge, s: InputService, received: Values, other: Values, author: Author,
                                 server: Values, body: ServerValues.Body, otherBody: ServerValues.Body,
                                 seeds: map<string, Tree>, name: string)
    requires Injective(s.wire) && body.form == otherBody.form && IsOwned(s, name)
    requires s.serializer.valid(body).Some? && s.serializer.valid(otherBody).Some?
    requires Lookup(received, name) == Lookup(other, name)
    ensures Agree(HandedTo(e, s, received, author, server, body, seeds),
                  HandedTo(e, s, other, author, server, otherBody, seeds), name)
  {
    var seat := InputSeat(e, s);
    if Routing(seat, author).Routed? {
      HandedWhereRouted(e, s, received, author, server, body, seeds);
      HandedWhereRouted(e, s, other, author, server, otherBody, seeds);
      OwnedValuesAlike(e, s, received, other, author, server, body, otherBody, name);
      ArgumentsOf(e, s, received, author, server, name);
      ArgumentsOf(e, s, other, author, server, name);
      RoutedAlikeAt(seat, author, received, other, name);
      var one, two := PrepareInput(e, s, received, author, server).value,
          PrepareInput(e, s, other, author, server).value;
      var verdict := ServerValues.Validate(s.serializer, ValidatorCall(e, s, one), body);
      var others := ServerValues.Validate(s.serializer, ValidatorCall(e, s, two), otherBody);
      if verdict.Validated? {
        PoolsAlikeAt(s, one, two, verdict.values, others.values, seeds, name);
      }
    }
  }

  lemma RoutedAlikeAt(seat: Seat, author: Author, received: Values, other: Values, name: string)
    requires Injective(seat.wire) && Lookup(received, name) == Lookup(other, name)
    ensures Lookup(RoutedArguments(seat, author, received), name) == Lookup(RoutedArguments(seat, author, other), name)
  {
    RoutedAt(seat, author, received, name);
    RoutedAt(seat, author, other, name);
  }

  /** Two clients' arguments, in one call, hand the service the same under a name. */
  ghost predicate AgreeFor(e: Edge, s: InputService, author: Author, server: Values, body: ServerValues.Body,
                           seeds: map<string, Tree>, name: string, received: Values, other: Values)
    requires Injective(s.wire)
  {
    Agree(HandedTo(e, s, received, author, server, body, seeds), HandedTo(e, s, other, author, server, body, seeds),
          name)
  }

  ghost predicate AlwaysAgree(e: Edge, s: InputService, author: Author, server: Values, body: ServerValues.Body,
                              seeds: map<string, Tree>, name: string)
    requires Injective(s.wire)
  {
    forall received, other :: AgreeFor(e, s, author, server, body, seeds, name, received, other)
  }

  /** The client's arguments never decide an owned name, exactly where it is no read left to the client. */
  lemma ClientDecidesExactlyWhatIsLeft(e: Edge, s: InputService, author: Author, server: Values,
                                       body: ServerValues.Body,
                                       seeds: map<string, Tree>, name: string, v: Value, w: Value)
    requires RegistersInput(s) && author.filled == s.filled && IsOwned(s, name) && s.asTree(v) != s.asTree(w)
    requires s.serializer.valid(body).Some? && HandedTo(e, s, map[], author, server, body, seeds).Some?
    ensures AlwaysAgree(e, s, author, server, body, seeds, name)
        <==> !LeftToTheClient(e, s, author, server, seeds, name)
  {
    if LeftToTheClient(e, s, author, server, seeds, name) {
      TheClientDecides(e, s, author, server, body, seeds, name, v, w);
    } else {
      TheServerAlwaysDecides(e, s, author, server, body, seeds, name);
    }
  }

  lemma TheServerAlwaysDecides(e: Edge, s: InputService, author: Author, server: Values, body: ServerValues.Body,
                               seeds: map<string, Tree>, name: string)
    requires RegistersInput(s) && author.filled == s.filled && IsOwned(s, name) && s.serializer.valid(body).Some?
    requires !LeftToTheClient(e, s, author, server, seeds, name)
    ensures AlwaysAgree(e, s, author, server, body, seeds, name)
  {
    forall received, other ensures AgreeFor(e, s, author, server, body, seeds, name, received, other) {
      TheServerDecides(e, s, author, server, body, seeds, name, received, other);
    }
  }

  lemma TheServerDecides(e: Edge, s: InputService, author: Author, server: Values, body: ServerValues.Body,
                         seeds: map<string, Tree>, name: string, received: Values, other: Values)
    requires RegistersInput(s) && author.filled == s.filled && IsOwned(s, name) && s.serializer.valid(body).Some?
    requires !LeftToTheClient(e, s, author, server, seeds, name)
    ensures AgreeFor(e, s, author, server, body, seeds, name, received, other)
  {
    OwnedNamesReachTheService(e, s, received, other, author, server, body, body, seeds, name);
  }

  lemma TheClientDecides(e: Edge, s: InputService, author: Author, server: Values, body: ServerValues.Body,
                         seeds: map<string, Tree>, name: string, v: Value, w: Value)
    requires RegistersInput(s) && author.filled == s.filled && IsOwned(s, name) && s.asTree(v) != s.asTree(w)
    requires s.serializer.valid(body).Some? && LeftToTheClient(e, s, author, server, seeds, name)
    requires HandedTo(e, s, map[], author, server, body, seeds).Some?
    ensures !AlwaysAgree(e, s, author, server, body, seeds, name)
  {
    if AlwaysAgree(e, s, author, server, body, seeds, name) {
      AlwaysMeansFor(e, s, author, server, body, seeds, name, map[name := v], map[name := w]);
      LeftIsHanded(e, s, map[name := v], author, server, body, seeds, name);
      LeftIsHanded(e, s, map[name := w], author, server, body, seeds, name);
    }
  }

  lemma AlwaysMeansFor(e: Edge, s: InputService, author: Author, server: Values, body: ServerValues.Body,
                       seeds: map<string, Tree>, name: string, received: Values, other: Values)
    requires Injective(s.wire) && AlwaysAgree(e, s, author, server, body, seeds, name)
    ensures Agree(HandedTo(e, s, received, author, server, body, seeds),
                  HandedTo(e, s, other, author, server, body, seeds), name)
  {
    assert AgreeFor(e, s, author, server, body, seeds, name, received, other);
  }

  /** The service is handed a read left to the client as the client sent it. */
  lemma LeftIsHanded(e: Edge, s: InputService, received: Values, author: Author, server: Values,
                     body: ServerValues.Body,
                     seeds: map<string, Tree>, name: string)
    requires RegistersInput(s) && author.filled == s.filled && IsOwned(s, name) && name in received
    requires s.serializer.valid(body).Some? && LeftToTheClient(e, s, author, server, seeds, name)
    requires HandedTo(e, s, map[], author, server, body, seeds).Some?
    ensures var handed := HandedTo(e, s, received, author, server, body, seeds);
            handed.Some? && TreeAt(handed.value, name) == Some(s.asTree(received[name]))
  {
    OwnedNamesReachTheService(e, s, received, map[], author, server, body, body, seeds, name);
  }

  // --- a read named like a field's source

  /** A field `tenant` with `source="org"`, which a callable marks, beside a declared read `org`. */
  const TENANT := ServerValues.Field("tenant", false, false, ["org"], (t: Tree) => None,
                                     (i: ServerValues.Input) => ServerValues.Skipped, None)

  const READS_A_SOURCE := InputService(
    ServerValues.Serializer([TENANT], (b: ServerValues.Body) => Some(ServerValues.Dict(map[]))),
    {"org"}, {"tenant"}, map["org" := "tenant"], {"tenant"}, {},
    (v: Value) => if v == Given(1) then ServerValues.Leaf("one") else ServerValues.Leaf("two"))

  const NO_AUTHOR := Author(map[], None, {})

  lemma NoAuthorAuthorsNothing(e: Edge)
    ensures Injective(READS_A_SOURCE.wire)
    ensures var routing := Routing(InputSeat(e, READS_A_SOURCE), NO_AUTHOR);
            routing.Routed? && routing.authored == map[]
  {
    var seat := InputSeat(e, READS_A_SOURCE);
    assert HookSplitValues(seat, Hooks(seat, NO_AUTHOR)) == map[]
        && ProvidedSplitValues(seat, Provided(NO_AUTHOR)) == map[];
    assert Provided(NO_AUTHOR).Keys * seat.seeded == {};
    SplitOfIsSplit(seat.names, seat.wire, map[]);
    assert SplitOf(seat.names, seat.wire, map[]).authored == map[];
  }

  /** It registers, and the client's `org` reaches the service under a name the mark owns. */
  lemma AReadNamedLikeASourceIsTheClients(e: Edge, body: ServerValues.Body)
    ensures RegistersInput(READS_A_SOURCE) && IsOwned(READS_A_SOURCE, "org")
    ensures var handed := HandedTo(e, READS_A_SOURCE, map["org" := Given(1)], NO_AUTHOR, map[], body, map[]);
            handed.Some? && TreeAt(handed.value, "org") == Some(ServerValues.Leaf("one"))
  {
    var s, received: Values := READS_A_SOURCE, map["org" := Given(1)];
    NoAuthorAuthorsNothing(e);
    assert TENANT in s.serializer.fields && TENANT.attrs[0] == "org";
    assert LeftToTheClient(e, s, NO_AUTHOR, map[], map[], "org");
    var call := PrepareInput(e, s, received, NO_AUTHOR, map[]).value;
    assert call.put == map[];
    NothingIsPut(e, s, call, body);
    OwnedNamesReachTheService(e, s, received, received, NO_AUTHOR, map[], body, body, map[], "org");
  }

  lemma NothingIsPut(e: Edge, s: InputService, call: BodyCall, body: ServerValues.Body)
    requires s == READS_A_SOURCE && call.put == map[]
    ensures ServerValues.Validate(s.serializer, ValidatorCall(e, s, call), body).Validated?
  {
    assert Treed(s, call.put) == map[];
    assert s.serializer.fields[1..] == [];
    assert ServerValues.ErrorsOf(s.serializer.fields, map[], body.form) == [];
  }

  function TreeAt(values: map<string, Tree>, name: string): Option<Tree> {
    if name in values then Some(values[name]) else None
  }
}
