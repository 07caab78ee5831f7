/**
  A single call of a service with no input serializer and no target lookup, under
  `BUNDLE`: its declared reads are all a caller fills, and the authors' values are
  seated over the Validator's or laid beneath what it binds.
*/
module BundledService {
  import opened Prelude
  import opened AuthorValues
  import opened Channels
  import opened SelectorCall

  /** Its `kwargs` provider, with the keys that is annotated to fill, and its `input_data` provider. */
  datatype Service = Service(service: Callable, url: set<string>, query: set<string>, shapes: set<string>,
                             filled: set<string>, provider: Option<Provider>, inputData: Option<Provider>)

  const VALIDATOR_BOUND: set<string> := {"serializer"}

  /** Under `BUNDLE` a service's own parameters are no read. */
  function ServiceReads(s: Service): set<string> { s.url + s.query - s.shapes }

  function ServiceChannels(s: Service): Declared { Declared(s.url, s.query, {}, {}) }

  function ServiceSeat(e: Edge, s: Service): Seat { Seat(ServiceReads(s), {}, map[], Reserved(e), {}, {}) }

  function ServiceAuthor(e: Edge, s: Service, route: Option<Values>, query: Option<Query>): Author {
    Author(e.hooks, if s.provider.Some? then Some(s.provider.value(route, query)) else None, s.filled)
  }

  /** What the server puts into the body: the hook's, then the spec's answers over them, a declined key apart. */
  function ServerInput(inputData: Option<Provider>, hooked: Values, route: Option<Values>,
                       query: Option<Query>): Values {
    if inputData.None? then hooked
    else
      var answered := inputData.value(route, query);
      hooked + map key | key in answered && answered[key] != Unset :: answered[key]
  }

  /** What the author's values no argument took become: those seated over the Validator's values, and those
      beneath what it binds. */
  datatype Seated = Seated(seated: Values, overlay: Values)

  function SeatAuthorValues(extra: Values): Seated {
    Seated(extra - VALIDATOR_BOUND, Restrict(extra, VALIDATOR_BOUND))
  }

  datatype ServiceCall = ServiceCall(arguments: Values, author: Seated)

  function ServiceReceived(e: Edge, s: Service, w: Wire, params: Params): Values {
    FinalArguments(e.c, ServiceChannels(s), w, params) - DroppedNames(e)
  }

  function ServiceCallOf(routed: Values, rest: Values, server: Values): ServiceCall {
    ServiceCall(routed + server, SeatAuthorValues(rest))
  }

  ghost function PrepareServiceFrom(e: Edge, s: Service, server: Values, received: Values,
                                    author: Author): Option<ServiceCall> {
    var seat := ServiceSeat(e, s);
    if Routing(seat, author).SeedRefused? then None
    else Some(ServiceCallOf(RoutedArguments(seat, author, received), Routing(seat, author).rest, server))
  }

  ghost function PrepareService(e: Edge, s: Service, hooked: Values, w: Wire, params: Params): Option<ServiceCall> {
    var d := ServiceChannels(s);
    var route, query := RouteAfter(e.c, d, w, params), QueryAfter(e.c, d, w, params);
    PrepareServiceFrom(e, s, ServerInput(s.inputData, hooked, route, query), ServiceReceived(e, s, w, params),
                       ServiceAuthor(e, s, route, query))
  }

  /** Both authors' values, then the server's input, over the arguments, as it runs. */
  method SeatServiceValues(e: Edge, s: Service, server: Values, author: Author,
                           arguments: Arguments?) returns (seated: Option<Seated>)
    modifies arguments
    ensures arguments != null ==>
              var call := PrepareServiceFrom(e, s, server, old(arguments.values), author);
              (seated.Some? <==> call.Some?)
              && (seated.Some? ==> arguments.values == call.value.arguments && seated.value == call.value.author)
  {
    var outcome := RouteAuthorValues(ServiceSeat(e, s), author, arguments);
    if outcome.SeedRefused? {
      return None;
    }
    if arguments != null {
      arguments.values := arguments.values + server;
    }
    seated := Some(SeatAuthorValues(outcome.rest));
  }

  /** As it runs; `hooked` is the view's own `input_data`. */
  method PrepareServiceCall(e: Edge, s: Service, hooked: Values, params: Params, view: View?, request: Request?)
    returns (arguments: Arguments?, author: Option<Seated>)
    modifies view, request
    ensures arguments == null <==> params.NoObject?
    ensures !params.NoObject? ==>
              var call := PrepareService(e, s, hooked, Wire(OverHttp(view), old(RouteOf(view)), old(QueryOf(request))),
                                         params);
              (author.Some? <==> call.Some?)
              && (author.Some? ==> arguments.values == call.value.arguments && author.value == call.value.author)
  {
    arguments := EdgeArguments(e.c, ServiceChannels(s), params, view, request);
    if arguments != null {
      arguments.values := arguments.values - DroppedNames(e);
    }
    var route, query := RouteOf(view), QueryOf(request);
    author := SeatServiceValues(e, s, ServerInput(s.inputData, hooked, route, query), ServiceAuthor(e, s, route, query),
                                arguments);
  }

  /** The kernel's pool: the overlay, the arguments its reads name, the `kwargs` seat's values over those, and the
      seeds, an empty `data` among them, over all. */
  function ServicePool(s: Service, call: ServiceCall, seeds: Values): Values {
    call.author.overlay + Restrict(call.arguments, ServiceReads(s)) + call.author.seated + seeds
  }

  ghost function ServiceHandedBy(s: Service, call: Option<ServiceCall>, seeds: Values, fn: Callable): Option<Values> {
    if call.None? then None
    else Some(if fn.open then ServicePool(s, call.value, seeds)
              else Restrict(ServicePool(s, call.value, seeds), fn.named))
  }

  // --- what reaches it

  /** The bundled live view, of a service: nothing the client sends as `params` reaches it or a precondition. */
  lemma BundledLiveService(e: Edge, s: Service, hooked: Values, w: Wire, params: Params, other: Params, seeds: Values,
                           fn: Callable)
    requires w.live
    ensures ServiceHandedBy(s, PrepareService(e, s, hooked, w, params), seeds, fn)
         == ServiceHandedBy(s, PrepareService(e, s, hooked, w, other), seeds, fn)
  {
    var d := ServiceChannels(s);
    LiveChannelsAreTheUrls(e.c, d, w, params, other);
    assert AgreeOn(ServiceReceived(e, s, w, params), ServiceReceived(e, s, w, other), ServiceReads(s));
    var route, query := RouteAfter(e.c, d, w, params), QueryAfter(e.c, d, w, params);
    ServicesAlike(e, s, ServerInput(s.inputData, hooked, route, query), ServiceReceived(e, s, w, params),
                  ServiceReceived(e, s, w, other), ServiceAuthor(e, s, route, query), seeds, fn);
  }

  lemma ServicesAlike(e: Edge, s: Service, server: Values, one: Values, two: Values, author: Author, seeds: Values,
                      fn: Callable)
    requires AgreeOn(one, two, ServiceReads(s))
    ensures ServiceHandedBy(s, PrepareServiceFrom(e, s, server, one, author), seeds, fn)
         == ServiceHandedBy(s, PrepareServiceFrom(e, s, server, two, author), seeds, fn)
  {
    var seat := ServiceSeat(e, s);
    if Routing(seat, author).Routed? {
      RoutedAlike(seat, author, one, two, ServiceReads(s));
      PoolsOfAlike(s, RoutedArguments(seat, author, one), RoutedArguments(seat, author, two),
                   Routing(seat, author).rest, server, seeds);
    }
  }

  lemma PoolsOfAlike(s: Service, one: Values, two: Values, rest: Values, server: Values, seeds: Values)
    requires AgreeOn(one, two, ServiceReads(s))
    ensures ServicePool(s, ServiceCallOf(one, rest, server), seeds)
         == ServicePool(s, ServiceCallOf(two, rest, server), seeds)
  {
    assert Restrict(one + server, ServiceReads(s)) == Restrict(two + server, ServiceReads(s));
  }

  /** Where each name a service is handed comes from: a seed; for a read, the server's input, then an author's,
      then the caller's less what the provider owns; for any other name an author's alone. */
  function ServiceSource(e: Edge, s: Service, server: Values, caller: Option<Value>, author: Author, seeds: Values,
                         name: string): Option<Value> {
    var authored := Or(GivenOf(Provided(author), name), GivenOf(Hooks(ServiceSeat(e, s), author), name));
    if name in seeds then Some(seeds[name])
    else if name in ServiceReads(s) then
      Or(Or(Lookup(server, name), authored), if name in author.filled then None else caller)
    else authored
  }

  lemma ServicePoolAt(s: Service, routed: Values, rest: Values, server: Values, seeds: Values, name: string)
    ensures Lookup(ServicePool(s, ServiceCallOf(routed, rest, server), seeds), name)
         == if name in seeds then Some(seeds[name])
            else if name in rest && name !in VALIDATOR_BOUND then Some(rest[name])
            else if name in ServiceReads(s) && name in server then Some(server[name])
            else if name in ServiceReads(s) && name in routed then Some(routed[name])
            else Lookup(rest, name)
  {
  }

  lemma ServiceRoutedAt(e: Edge, s: Service, received: Values, author: Author, name: string)
    requires Routing(ServiceSeat(e, s), author).Routed? && !OnAChannel(name)
    ensures var seat := ServiceSeat(e, s);
            var authored := Or(GivenOf(Provided(author), name), GivenOf(Hooks(seat, author), name));
            && Lookup(Routing(seat, author).rest, name) == (if name in ServiceReads(s) then None else authored)
            && (name in ServiceReads(s) ==>
                  Lookup(RoutedArguments(seat, author, received), name)
                      == Or(authored, if name in author.filled then None else Lookup(received, name)))
  {
    RestAt(ServiceSeat(e, s), author, name);
    if name in ServiceReads(s) {
      ArgumentAt(ServiceSeat(e, s), author, received, name);
    }
  }

  lemma ServiceHandedAt(e: Edge, s: Service, server: Values, received: Values, author: Author, seeds: Values,
                        fn: Callable, name: string)
    requires Routing(ServiceSeat(e, s), author).Routed? && (name in fn.named || fn.open)
    ensures var seat := ServiceSeat(e, s);
            var handed := ServiceHandedBy(s, PrepareServiceFrom(e, s, server, received, author), seeds, fn);
            && handed.Some?
            && Lookup(handed.value, name)
            == Lookup(ServicePool(s, ServiceCallOf(RoutedArguments(seat, author, received), Routing(seat, author).rest,
                                                   server), seeds), name)
  {
  }

  /** Every name a service or a precondition takes, a parameter or a key of its `**kwargs`, is handed exactly what
      its source gives, and nothing where none does. */
  lemma EveryServiceParameterHasOneSource(e: Edge, s: Service, server: Values, received: Values, author: Author,
                                          seeds: Values, fn: Callable, name: string)
    requires (name in fn.named || fn.open) && !OnAChannel(name)
    ensures var handed := ServiceHandedBy(s, PrepareServiceFrom(e, s, server, received, author), seeds, fn);
            handed.Some? ==>
              Lookup(handed.value, name) == ServiceSource(e, s, server, Lookup(received, name), author, seeds, name)
  {
    var seat := ServiceSeat(e, s);
    if Routing(seat, author).Routed? {
      ServiceHandedAt(e, s, server, received, author, seeds, fn, name);
      ServicePoolAt(s, RoutedArguments(seat, author, received), Routing(seat, author).rest, server, seeds, name);
      ServiceRoutedAt(e, s, received, author, name);
    } else {
      assert PrepareServiceFrom(e, s, server, received, author) == None;
    }
  }

  /** What the caller's params, route and query string make a name's argument: nothing of a seed's name. */
  function CallersRead(e: Edge, s: Service, w: Wire, params: Params, name: string): Option<Value> {
    if name in e.poolSeeds || name in e.registered || name == "request" || name == "serializer" then None
    else ArgumentSource(e.c, ServiceChannels(s), w, params, name)
  }

  /** The names a caller fills: the declared reads that are no shape. */
  lemma ReadsAreTheDeclared(s: Service, name: string)
    ensures name in ServiceReads(s) <==> (name in s.url || name in s.query) && name !in s.shapes
  {
  }

  ghost predicate ServiceAuthors(e: Edge, s: Service, route: Option<Values>, query: Option<Query>, author: Author) {
    && author.hooks == e.hooks && author.filled == s.filled
    && author.provided == match s.provider case None => None case Some(provider) => Some(provider(route, query))
  }

  lemma ServiceReceivedIsTheCallers(e: Edge, s: Service, w: Wire, params: Params, name: string)
    ensures Lookup(ServiceReceived(e, s, w, params), name) == CallersRead(e, s, w, params, name)
  {
    ArgumentsComeFromTheirChannels(e.c, ServiceChannels(s), w, params, name);
  }

  lemma ServiceRefusedForASeed(e: Edge, s: Service, server: Values, received: Values, author: Author, seeds: Values,
                               fn: Callable)
    ensures ServiceHandedBy(s, PrepareServiceFrom(e, s, server, received, author), seeds, fn).Some?
       <==> !NamesASeed(ServiceSeat(e, s), author)
  {
  }

  lemma PreparedFromChannels(e: Edge, s: Service, hooked: Values, w: Wire, params: Params)
    ensures var d := ServiceChannels(s);
            var route, query := RouteAfter(e.c, d, w, params), QueryAfter(e.c, d, w, params);
            PrepareService(e, s, hooked, w, params)
            == PrepareServiceFrom(e, s, ServerInput(s.inputData, hooked, route, query),
                                  ServiceReceived(e, s, w, params), ServiceAuthor(e, s, route, query))
  {
  }

  /** The same of a whole call: the authors and `input_data` answer from the channels as the edge left them, and the
      caller's are what its params, route and query string make them. */
  lemma EveryServiceParameterFromTheWire(e: Edge, s: Service, hooked: Values, w: Wire, params: Params, seeds: Values,
                                         fn: Callable, name: string)
    requires (name in fn.named || fn.open) && !OnAChannel(name)
    ensures var d := ServiceChannels(s);
            var route, query := RouteAfter(e.c, d, w, params), QueryAfter(e.c, d, w, params);
            var author, server := ServiceAuthor(e, s, route, query), ServerInput(s.inputData, hooked, route, query);
            var handed := ServiceHandedBy(s, PrepareService(e, s, hooked, w, params), seeds, fn);
            && ServiceAuthors(e, s, route, query, author)
            && (handed.Some? <==> !NamesASeed(ServiceSeat(e, s), author))
            && (handed.Some? ==>
                  Lookup(handed.value, name)
                  == ServiceSource(e, s, server, CallersRead(e, s, w, params, name), author, seeds, name))
  {
    var d := ServiceChannels(s);
    var route, query := RouteAfter(e.c, d, w, params), QueryAfter(e.c, d, w, params);
    var author, server := ServiceAuthor(e, s, route, query), ServerInput(s.inputData, hooked, route, query);
    PreparedFromChannels(e, s, hooked, w, params);
    ServiceReceivedIsTheCallers(e, s, w, params, name);
    ServiceRefusedForASeed(e, s, server, ServiceReceived(e, s, w, params), author, seeds, fn);
    EveryServiceParameterHasOneSource(e, s, server, ServiceReceived(e, s, w, params), author, seeds, fn, name);
  }

  /** What the server puts into the body is the provider's answer where it gives one, else the view's own. */
  lemma ServerInputAt(inputData: Option<Provider>, hooked: Values, route: Option<Values>, query: Option<Query>,
                      name: string)
    ensures var answered := if inputData.Some? then inputData.value(route, query) else map[];
            Lookup(ServerInput(inputData, hooked, route, query), name)
            == Or(GivenOf(answered, name), Lookup(hooked, name))
  {
  }
}
