/**
  One selector call end to end: the edge's arguments, what it keeps beside a filter
  and on the server's channel, the kernel's pool, and what each compiled callable is
  handed of it.
*/
module SelectorCall {
  import opened Prelude
  import opened AuthorValues
  import opened Channels

  /** A callable's keyword parameters, the keys of its `Unpack`-ed `TypedDict`, those of both it marks
      `NotClientInput`, and whether it takes a `**kwargs`. */
  datatype Callable = Callable(named: set<string>, keys: set<string>, marked: set<string>, open: bool)

  /** What a spec's provider answers, read off the route and the query string the view and request carry. */
  type Provider = (Option<Values>, Option<Query>) -> Values

  /** A selector spec: its declared reads by channel, those of them compiled as shapes, the names its filter
      reads, and its `kwargs` provider with the keys that is annotated to fill. */
  datatype Selector = Selector(selector: Callable, preconditions: seq<Callable>, url: set<string>, query: set<string>,
                               shapes: set<string>, filter: set<string>, filled: set<string>,
                                   provider: Option<Provider>)

  /** What one edge call is made with: how the client's values are read, a filter's included (`None` is no
      value), the kernel's reserved seeds and the project's registered ones, the view's hook values, and whether
      it is bound under `BUNDLE`. */
  datatype Edge = Edge(c: Coercion, reading: (string, Value) -> Option<Value>, poolSeeds: set<string>,
                       registered: set<string>,
                       hooks: Values, bundled: bool)

  // --- the compiled spec's names

  function Callables(s: Selector): seq<Callable> { [s.selector] + s.preconditions }

  /** A name any callable marks is the server's for the whole call. */
  function Hidden(s: Selector): set<string> {
    set fn, name | fn in Callables(s) && name in fn.marked :: name
  }

  function ServerOwned(s: Selector): set<string> { {"view"} + Hidden(s) }

  function Shadowed(s: Selector): set<string> { ServerOwned(s) * s.filter }

  function Asked(s: Selector): set<string> { s.url + s.query }

  function NotArguments(e: Edge): set<string> { e.poolSeeds + {"request", "view", "user", "serializer"} }

  function Reserved(e: Edge): set<string> { e.poolSeeds + e.registered + {"request", "view"} }

  function DroppedNames(e: Edge): set<string> { e.poolSeeds + e.registered + {"request", "serializer"} }

  /** The compiled reads: the selector's signature less what is no argument, the declared reads that are no
      shape, and the filter's names, which the kernel adds. */
  function Reads(e: Edge, s: Selector): set<string> {
    (s.selector.named + s.selector.keys - NotArguments(e) - Hidden(s)) + (Asked(s) - s.shapes) + s.filter
  }

  /** What registering a spec refuses: a declared read that is no argument or that a callable hides, and a
      filter named like a seed. */
  ghost predicate Registers(e: Edge, s: Selector) {
    && Asked(s) !! NotArguments(e) + Hidden(s)
    && s.filter !! Reserved(e)
  }

  function ChannelsOf(e: Edge, s: Selector): Declared { Declared(s.url, s.query, Reads(e, s), {}) }

  /** The names `BUNDLE` takes none of the caller's values for. */
  function CallerNames(e: Edge, s: Selector): set<string> { Reads(e, s) - Asked(s) - s.filter }

  function BesideNames(s: Selector): set<string> { s.filter - Shadowed(s) }

  function SeatOf(e: Edge, s: Selector): Seat {
    Seat(Reads(e, s), {}, map[], Reserved(e), Shadowed(s), BesideNames(s))
  }

  // --- what the edge makes of the call

  function Keys(route: Option<Values>): set<string> { if route.Some? then route.value.Keys else {} }

  function Captures(route: Option<Values>, names: set<string>): Values {
    if route.Some? then Restrict(route.value, names) else map[]
  }

  /** The arguments less the seeds' names, and under `BUNDLE` less the caller's values for the selector's own
      parameters, where no route captures them. */
  function Received(e: Edge, s: Selector, w: Wire, params: Params): Values {
    var route := RouteAfter(e.c, ChannelsOf(e, s), w, params);
    var arguments := FinalArguments(e.c, ChannelsOf(e, s), w, params) - DroppedNames(e);
    if e.bundled then arguments - (CallerNames(e, s) - Keys(route)) else arguments
  }

  /** What the callables are handed under the filter's names. */
  function BesideFilter(e: Edge, s: Selector, arguments: Values, route: Option<Values>): Values {
    Restrict(if e.bundled then Restrict(arguments, Asked(s)) else arguments, BesideNames(s))
        + Captures(route, BesideNames(s))
  }

  function FilterRouted(e: Edge, s: Selector, arguments: Values, filterData: Option<Params>): Values {
    if filterData.None? then arguments else (arguments - s.filter) + Restrict(Sent(e.c, filterData.value), s.filter)
  }

  function ReadByFilter(e: Edge, s: Selector, arguments: Values): Values {
    map name | name in arguments && (name in s.filter ==> e.reading(name, arguments[name]).Some?)
      :: if name in s.filter then e.reading(name, arguments[name]).value else arguments[name]
  }

  function AuthorOf(e: Edge, s: Selector, route: Option<Values>, query: Option<Query>): Author {
    Author(e.hooks, if s.provider.Some? then Some(s.provider.value(route, query)) else None, s.filled)
  }

  function HiddenCaptures(e: Edge, s: Selector, route: Option<Values>): Values {
    Captures(route, ServerOwned(s) - Reserved(e))
  }

  /** Each key of `values` a filter reads and a callable hides under its server channel. */
  function OnTheServersChannel(shadowed: set<string>, values: Values): Values {
    (values - shadowed) + map k | k in ServerChannels(shadowed * values.Keys) :: values[k[|SERVER_CHANNEL|..]]
  }

  /** What the edge hands the kernel, and what it keeps beside the filter for the callables. */
  datatype Prepared = Prepared(arguments: Values, extra: Values, beside: Values)

  ghost function ExtraOf(e: Edge, s: Selector, route: Option<Values>, author: Author): Values
    requires Routing(SeatOf(e, s), author).Routed?
  {
    OnTheServersChannel(Shadowed(s), HiddenCaptures(e, s, route))
        + OnTheServersChannel(Shadowed(s), Routing(SeatOf(e, s), author).rest)
  }

  ghost function PreparedOf(e: Edge, s: Selector, received: Values, route: Option<Values>, author: Author,
                            filterData: Option<Params>): Prepared
    requires Routing(SeatOf(e, s), author).Routed?
  {
    Prepared(RoutedArguments(SeatOf(e, s), author, ReadByFilter(e, s, FilterRouted(e, s, received, filterData))),
             ExtraOf(e, s, route, author),
             BesideFilter(e, s, received, route) + Routing(SeatOf(e, s), author).beside)
  }

  /** `None` where the provider names a seed, which is refused. */
  ghost function PrepareFrom(e: Edge, s: Selector, received: Values, route: Option<Values>, query: Option<Query>,
                             filterData: Option<Params>): Option<Prepared> {
    var author := AuthorOf(e, s, route, query);
    if Routing(SeatOf(e, s), author).SeedRefused? then None
        else Some(PreparedOf(e, s, received, route, author, filterData))
  }

  ghost function Prepare(e: Edge, s: Selector, w: Wire, params: Params, filterData: Option<Params>): Option<Prepared> {
    var d := ChannelsOf(e, s);
    PrepareFrom(e, s, Received(e, s, w, params), RouteAfter(e.c, d, w, params), QueryAfter(e.c, d, w, params),
                filterData)
  }

  /** The edge's state for the call: what its compiled callables read. */
  class EdgeCallState {
    var besideFilter: Option<Values>

    constructor ()
      ensures besideFilter == None
    {
      besideFilter := None;
    }
  }

  /** With `filter_data` a filter name is read from it alone. */
  method RouteFilterData(e: Edge, s: Selector, arguments: Arguments?, filterData: Option<Params>)
    modifies arguments
    ensures arguments != null ==> arguments.values == FilterRouted(e, s, old(arguments.values), filterData)
  {
    if filterData.None? || arguments == null {
      return;
    }
    var pending := s.filter;
    while pending != {}
      invariant pending <= s.filter && arguments.values == old(arguments.values) - (s.filter - pending)
      decreases pending
    {
      var name :| name in pending;
      arguments.values := arguments.values - {name};
      pending := pending - {name};
    }
    assert s.filter - pending == s.filter;
    arguments.values := arguments.values + Restrict(Sent(e.c, filterData.value), s.filter);
  }

  /** Each filter's value becomes what its FilterSet reads. */
  method AsItsFilterSetReads(e: Edge, s: Selector, arguments: Arguments?)
    modifies arguments
    ensures arguments != null ==> arguments.values == ReadByFilter(e, s, old(arguments.values))
  {
    if arguments == null {
      return;
    }
    var was := arguments.values;
    var pending := s.filter * was.Keys;
    while pending != {}
      invariant pending <= s.filter * was.Keys
      invariant forall name :: name in pending || name !in s.filter ==>
        (name in arguments.values <==> name in was) && (name in was ==> arguments.values[name] == was[name])
      invariant forall name :: name in s.filter && name !in pending ==>
        && (name in arguments.values <==> name in was && e.reading(name, was[name]).Some?)
        && (name in arguments.values ==> arguments.values[name] == e.reading(name, was[name]).value)
      decreases pending
    {
      var name :| name in pending;
      var read := e.reading(name, arguments.values[name]);
      arguments.values := if read.Some? then arguments.values[name := read.value] else arguments.values - {name};
      pending := pending - {name};
    }
  }

  /** The call's arguments, as it runs. */
  method Receive(e: Edge, s: Selector, params: Params, view: View?, request: Request?) returns (arguments: Arguments?)
    modifies view, request
    ensures (arguments == null <==> params.NoObject?) && (arguments != null ==> fresh(arguments))
    ensures !params.NoObject? ==>
              arguments.values == Received(e, s, Wire(OverHttp(view), old(RouteOf(view)), old(QueryOf(request))),
                                           params)
    ensures !params.NoObject? ==>
              && RouteOf(view) == RouteAfter(e.c, ChannelsOf(e, s),
                                             Wire(OverHttp(view), old(RouteOf(view)), old(QueryOf(request))), params)
              && QueryOf(request) == QueryAfter(e.c, ChannelsOf(e, s),
                                                Wire(OverHttp(view), old(RouteOf(view)), old(QueryOf(request))), params)
  {
    arguments := EdgeArguments(e.c, ChannelsOf(e, s), params, view, request);
    if arguments != null {
      arguments.values := arguments.values - DroppedNames(e);
      if e.bundled {
        arguments.values := arguments.values - (CallerNames(e, s) - Keys(RouteOf(view)));
      }
    }
  }

  /** The filter's values and the authors' over the arguments, as it runs. */
  method RouteValues(e: Edge, s: Selector, arguments: Arguments?, route: Option<Values>, query: Option<Query>,
                     filterData: Option<Params>, state: EdgeCallState)
    returns (extra: Option<Values>)
    modifies arguments, state
    ensures arguments != null ==>
              var prepared := PrepareFrom(e, s, old(arguments.values), route, query, filterData);
              && (extra.Some? <==> prepared.Some?)
              && (extra.Some? ==>
                    && arguments.values == prepared.value.arguments && extra.value == prepared.value.extra
                    && state.besideFilter == Some(prepared.value.beside))
  {
    var beside := if arguments == null then map[] else BesideFilter(e, s, arguments.values, route);
    RouteFilterData(e, s, arguments, filterData);
    AsItsFilterSetReads(e, s, arguments);
    var outcome := RouteAuthorValues(SeatOf(e, s), AuthorOf(e, s, route, query), arguments);
    if outcome.SeedRefused? {
      return None;
    }
    state.besideFilter := Some(beside + outcome.beside);
    extra := Some(OnTheServersChannel(Shadowed(s), HiddenCaptures(e, s, route))
                  + OnTheServersChannel(Shadowed(s), outcome.rest));
  }

  /** The edge's whole preparation of a selector call, as it runs. Params that are no object are left for the
      kernel's shape check, which refuses them. */
  method PrepareSelectorCall(e: Edge, s: Selector, params: Params, view: View?, request: Request?,
                             filterData: Option<Params>, state: EdgeCallState)
    returns (arguments: Arguments?, extra: Option<Values>)
    modifies view, request, state
    ensures arguments == null <==> params.NoObject?
    ensures !params.NoObject? ==>
              var prepared := Prepare(e, s, Wire(OverHttp(view), old(RouteOf(view)), old(QueryOf(request))), params,
                                      filterData);
              && (extra.Some? <==> prepared.Some?)
              && (extra.Some? ==>
                    && arguments.values == prepared.value.arguments && extra.value == prepared.value.extra
                    && state.besideFilter == Some(prepared.value.beside))
  {
    arguments := Receive(e, s, params, view, request);
    extra := RouteValues(e, s, arguments, RouteOf(view), QueryOf(request), filterData, state);
  }

  // --- the kernel, and the compiled callables

  /** The kernel's pool: the extras, the arguments its parameters name, and the seeds over both. */
  function Pool(e: Edge, s: Selector, prepared: Prepared, seeds: Values): Values {
    prepared.extra + Restrict(prepared.arguments, Reads(e, s)) + seeds
  }

  /** The names a filter reads and a callable hides, whose parameters are taken on a server channel. */
  function Moved(s: Selector): set<string> { Hidden(s) * s.filter }

  /** The parameters `fn` takes on their server channel. */
  function Renamed(s: Selector, fn: Callable): set<string> { Moved(s) * fn.named }

  function Signature(s: Selector, fn: Callable): set<string> {
    (fn.named - Renamed(s, fn)) + ServerChannels(Renamed(s, fn))
  }

  /** Each name on a server channel under its own. */
  function OwnName(k: string): string {
    if SERVER_CHANNEL <= k then k[|SERVER_CHANNEL|..] else k
  }

  function OwnNames(values: Values): Values {
    map name | name in (set k | k in values :: OwnName(k))
      :: if ServerChannel(name) in values then values[ServerChannel(name)]
         else if name in values then values[name]
         else Unset
  }

  /** What the kernel hands the compiled `fn`, less the filter's names, with what is kept beside the filter. */
  function BesideItsFilter(s: Selector, fn: Callable, beside: Values, pool: Values): Values {
    var taken := if fn.open then s.filter else s.filter * Signature(s, fn);
    var kwargs := if fn.open then pool else Restrict(pool, Signature(s, fn));
    if taken == {} then kwargs else (kwargs - s.filter) + Restrict(beside, taken)
  }

  /** What the author's `fn` is handed. */
  function Handed(s: Selector, fn: Callable, beside: Values, pool: Values): Values {
    var kwargs := BesideItsFilter(s, fn, beside, pool);
    if Renamed(s, fn) == {} then kwargs else OwnNames(kwargs)
  }

  /** What a prepared call hands `fn`; a refused one hands it nothing. */
  ghost function HandedBy(e: Edge, s: Selector, prepared: Option<Prepared>, seeds: Values,
                          fn: Callable): Option<Values> {
    if prepared.None? then None else Some(Handed(s, fn, prepared.value.beside, Pool(e, s, prepared.value, seeds)))
  }

  // --- which of a caller's values can reach a callable

  ghost predicate AgreeOn(a: Values, b: Values, names: set<string>) {
    forall name :: name in names ==> (name in a <==> name in b) && (name in a ==> a[name] == b[name])
  }

  ghost predicate AgreeOff(a: Values, b: Values, names: set<string>) {
    forall name :: name !in names ==> (name in a <==> name in b) && (name in a ==> a[name] == b[name])
  }

  /** A callable is handed nothing of the filter's names but what is kept beside it. */
  lemma FilterNamesNeverPass(s: Selector, fn: Callable, beside: Values, pool: Values, other: Values)
    requires AgreeOff(pool, other, s.filter)
    ensures Handed(s, fn, beside, pool) == Handed(s, fn, beside, other)
  {
    var taken := if fn.open then s.filter else s.filter * Signature(s, fn);
    if fn.open {
      LessAlike(pool, other, s.filter);
      assert s.filter == {} ==> pool - s.filter == pool && other - s.filter == other;
    } else if taken == {} {
      forall name | name in Signature(s, fn) ensures name !in s.filter {
        assert name in s.filter ==> name in taken;
      }
      RestrictsAlike(pool, other, s.filter, Signature(s, fn));
    } else {
      RestrictsLessAlike(pool, other, s.filter, Signature(s, fn));
    }
  }

  lemma LessAlike(one: Values, two: Values, off: set<string>)
    requires AgreeOff(one, two, off)
    ensures one - off == two - off
  {
  }

  lemma RestrictsLessAlike(one: Values, two: Values, off: set<string>, names: set<string>)
    requires AgreeOff(one, two, off)
    ensures Restrict(one, names) - off == Restrict(two, names) - off
  {
  }

  lemma RoutedAlike(seat: Seat, author: Author, one: Values, two: Values, names: set<string>)
    requires Injective(seat.wire) && AgreeOn(one, two, names)
    ensures AgreeOn(RoutedArguments(seat, author, one), RoutedArguments(seat, author, two), names)
  {
  }

  /** Two calls whose channels end alike, whose arguments agree on the reads that are no filter's, and which
      keep the same beside it, hand every callable the same. */
  lemma SameForEveryCallable(e: Edge, s: Selector, one: Values, two: Values, route: Option<Values>,
                             query: Option<Query>,
                             data: Option<Params>, otherData: Option<Params>, seeds: Values, fn: Callable)
    requires AgreeOn(one, two, Reads(e, s) - s.filter)
             && BesideFilter(e, s, one, route) == BesideFilter(e, s, two, route)
    ensures HandedBy(e, s, PrepareFrom(e, s, one, route, query, data), seeds, fn)
         == HandedBy(e, s, PrepareFrom(e, s, two, route, query, otherData), seeds, fn)
  {
    var first, second := PrepareFrom(e, s, one, route, query, data), PrepareFrom(e, s, two, route, query, otherData);
    if first.Some? {
      FilteringTouchesNoOther(e, s, one, two, data, otherData);
      RoutedAlike(SeatOf(e, s), AuthorOf(e, s, route, query), ReadByFilter(e, s, FilterRouted(e, s, one, data)),
                  ReadByFilter(e, s, FilterRouted(e, s, two, otherData)), Reads(e, s) - s.filter);
      PoolsAlike(e, s, first.value, second.value, seeds);
      FilterNamesNeverPass(s, fn, first.value.beside, Pool(e, s, first.value, seeds), Pool(e, s, second.value, seeds));
    }
  }

  lemma FilteringTouchesNoOther(e: Edge, s: Selector, one: Values, two: Values, data: Option<Params>,
                                otherData: Option<Params>)
    requires AgreeOn(one, two, Reads(e, s) - s.filter)
    ensures AgreeOn(ReadByFilter(e, s, FilterRouted(e, s, one, data)),
                    ReadByFilter(e, s, FilterRouted(e, s, two, otherData)), Reads(e, s) - s.filter)
  {
  }

  lemma PoolsAlike(e: Edge, s: Selector, one: Prepared, two: Prepared, seeds: Values)
    requires one.extra == two.extra && AgreeOn(one.arguments, two.arguments, Reads(e, s) - s.filter)
    ensures AgreeOff(Pool(e, s, one, seeds), Pool(e, s, two, seeds), s.filter)
  {
  }

  lemma ArgumentsAlike(c: Coercion, d: Declared, w: Wire, params: Params, other: Params, names: set<string>)
    requires AgreeOff(Sent(c, params), Sent(c, other), names)
    ensures AgreeOff(BeforeQuery(c, d, w, params), BeforeQuery(c, d, w, other), names)
    ensures AgreeOff(AfterRoute(c, d, w, params), AfterRoute(c, d, w, other), names)
  {
  }

  /** Params alike off a set of names no channel is declared for leave the channels alike, and the arguments. */
  lemma ChannelsCarryNothingElse(c: Coercion, d: Declared, w: Wire, params: Params, other: Params, names: set<string>)
    requires AgreeOff(Sent(c, params), Sent(c, other), names) && d.url + d.query !! names
    ensures RouteAfter(c, d, w, params) == RouteAfter(c, d, w, other)
    ensures QueryAfter(c, d, w, params) == QueryAfter(c, d, w, other)
    ensures AgreeOff(FinalArguments(c, d, w, params), FinalArguments(c, d, w, other), names)
  {
    ArgumentsAlike(c, d, w, params, other, names);
    RestrictsAlike(AfterRoute(c, d, w, params), AfterRoute(c, d, w, other), names, d.url - Keys(w.route) - d.fields);
    if w.query.Some? {
      QueryCarriesNothingElse(c, d, w.query.value, BeforeQuery(c, d, w, params), BeforeQuery(c, d, w, other), names);
    }
  }

  lemma QueryCarriesNothingElse(c: Coercion, d: Declared, query: Query, one: Values, two: Values, names: set<string>)
    requires AgreeOff(one, two, names) && d.query !! names
    ensures Restrict(one, d.query - query.Keys) == Restrict(two, d.query - query.Keys)
    ensures AgreeOff(one + Flat(c, query, d.query - one.Keys), two + Flat(c, query, d.query - two.Keys), names)
  {
    RestrictsAlike(one, two, names, d.query - query.Keys);
    assert d.query - one.Keys == d.query - two.Keys;
  }

  lemma RestrictsAlike(one: Values, two: Values, off: set<string>, names: set<string>)
    requires AgreeOff(one, two, off) && names !! off
    ensures Restrict(one, names) == Restrict(two, names)
  {
  }

  lemma BesideAlike(e: Edge, s: Selector, one: Values, two: Values, route: Option<Values>, off: set<string>)
    requires AgreeOff(one, two, off) && (BesideNames(s) !! off || (e.bundled && Asked(s) !! off))
    ensures BesideFilter(e, s, one, route) == BesideFilter(e, s, two, route)
  {
    if e.bundled {
      assert Restrict(Restrict(one, Asked(s)), BesideNames(s)) == Restrict(Restrict(two, Asked(s)), BesideNames(s));
    } else {
      RestrictsAlike(one, two, off, BesideNames(s));
    }
  }

  /** Selector isolation. Two calls alike but for the client's values of names a callable marks
      `NotClientInput`, a filter's among them, and for `filter_data`, hand the selector and each precondition
      the same keyword arguments, an open `**kwargs` included, given the same seeds. */
  lemma SelectorIsolation(e: Edge, s: Selector, w: Wire, params: Params, other: Params, data: Option<Params>,
                          otherData: Option<Params>,
                          seeds: Values, fn: Callable)
    requires Registers(e, s) && fn in Callables(s)
    requires AgreeOff(Sent(e.c, params), Sent(e.c, other), ServerOwned(s))
    ensures HandedBy(e, s, Prepare(e, s, w, params, data), seeds, fn)
         == HandedBy(e, s, Prepare(e, s, w, other, otherData), seeds, fn)
  {
    var d, owned := ChannelsOf(e, s), ServerOwned(s);
    ChannelsCarryNothingElse(e.c, d, w, params, other, owned);
    var route := RouteAfter(e.c, d, w, params);
    var one, two := Received(e, s, w, params), Received(e, s, w, other);
    assert AgreeOff(one, two, owned);
    BesideAlike(e, s, one, two, route, owned);
    OwnedReadsAreTheFilters(e, s);
    assert AgreeOn(one, two, Reads(e, s) - s.filter);
    SameForEveryCallable(e, s, one, two, route, QueryAfter(e.c, d, w, params), data, otherData, seeds, fn);
  }

  lemma OwnedReadsAreTheFilters(e: Edge, s: Selector)
    requires Registers(e, s)
    ensures (Reads(e, s) - s.filter) !! ServerOwned(s)
  {
  }

  /** The bundled live view. Under `BUNDLE` on a live view nothing the client sends as `params` or `filter_data`
      reaches a callable: the route, the query string, the hooks, the provider and the seeds decide it all. */
  lemma BundledLiveView(e: Edge, s: Selector, w: Wire, params: Params, other: Params, data: Option<Params>,
                        otherData: Option<Params>,
                        seeds: Values, fn: Callable)
    requires e.bundled && w.live && fn in Callables(s)
    ensures HandedBy(e, s, Prepare(e, s, w, params, data), seeds, fn)
         == HandedBy(e, s, Prepare(e, s, w, other, otherData), seeds, fn)
  {
    BundledAlike(e, s, w, params, other);
    var d := ChannelsOf(e, s);
    SameForEveryCallable(e, s, Received(e, s, w, params), Received(e, s, w, other), RouteAfter(e.c, d, w, params),
                         QueryAfter(e.c, d, w, params), data, otherData, seeds, fn);
  }

  lemma BundledAlike(e: Edge, s: Selector, w: Wire, params: Params, other: Params)
    requires e.bundled && w.live
    ensures RouteAfter(e.c, ChannelsOf(e, s), w, params) == RouteAfter(e.c, ChannelsOf(e, s), w, other)
    ensures QueryAfter(e.c, ChannelsOf(e, s), w, params) == QueryAfter(e.c, ChannelsOf(e, s), w, other)
    ensures AgreeOn(Received(e, s, w, params), Received(e, s, w, other), Reads(e, s) - s.filter)
    ensures var route := RouteAfter(e.c, ChannelsOf(e, s), w, params);
            BesideFilter(e, s, Received(e, s, w, params), route) == BesideFilter(e, s, Received(e, s, w, other), route)
  {
    AskedAlike(e, s, w, params, other);
    CapturedAlone(e, s, w, params, other);
    LiveChannelsAreTheUrls(e.c, ChannelsOf(e, s), w, params, other);
    BundledBesideAlike(e, s, Received(e, s, w, params), Received(e, s, w, other),
                       RouteAfter(e.c, ChannelsOf(e, s), w, params));
  }

  lemma BundledBesideAlike(e: Edge, s: Selector, one: Values, two: Values, route: Option<Values>)
    requires e.bundled && AgreeOn(one, two, Asked(s))
    ensures BesideFilter(e, s, one, route) == BesideFilter(e, s, two, route)
  {
    assert Restrict(one, Asked(s)) == Restrict(two, Asked(s));
  }

  lemma AskedAlike(e: Edge, s: Selector, w: Wire, params: Params, other: Params)
    requires w.live
    ensures AgreeOn(Received(e, s, w, params), Received(e, s, w, other), Asked(s))
  {
    LiveChannelsAreTheUrls(e.c, ChannelsOf(e, s), w, params, other);
  }

  lemma FinalAt(c: Coercion, d: Declared, w: Wire, params: Params, name: string)
    requires name !in d.url + d.query
    ensures Lookup(FinalArguments(c, d, w, params), name)
         == Or(Lookup(Captured(c, d, w.route), name), Lookup(Sent(c, params), name))
  {
  }

  lemma CapturedAt(e: Edge, s: Selector, w: Wire, params: Params, name: string)
    requires e.bundled && w.live && name in CallerNames(e, s)
    ensures Lookup(Received(e, s, w, params), name)
         == if name in DroppedNames(e) then None else Lookup(Captured(e.c, ChannelsOf(e, s), w.route), name)
  {
    assert RouteAfter(e.c, ChannelsOf(e, s), w, params) == w.route;
    FinalAt(e.c, ChannelsOf(e, s), w, params, name);
  }

  /** Of the selector's own parameters a bundled call receives the route's captures and nothing else. */
  lemma CapturedAlone(e: Edge, s: Selector, w: Wire, params: Params, other: Params)
    requires e.bundled && w.live
    ensures forall name :: name in CallerNames(e, s) && name in Received(e, s, w, params) ==>
      name in Keys(w.route) && Received(e, s, w, params)[name] == e.c.coerce(name, w.route.value[name])
    ensures AgreeOn(Received(e, s, w, params), Received(e, s, w, other), CallerNames(e, s))
  {
    forall name | name in CallerNames(e, s)
      ensures Lookup(Received(e, s, w, params), name)
           == if name in DroppedNames(e) then None else Lookup(Captured(e.c, ChannelsOf(e, s), w.route), name)
      ensures Lookup(Received(e, s, w, params), name) == Lookup(Received(e, s, w, other), name)
    {
      CapturedAt(e, s, w, params, name);
      CapturedAt(e, s, w, other, name);
    }
  }

  // --- what each parameter is handed

  function GivenOf(values: Values, name: string): Option<Value> {
    if Gives(values, name) then Some(values[name]) else None
  }

  /** A name the filter reads: an author's answer, then the route's capture, then, where no callable hides it,
      the caller's argument as sent, which under `BUNDLE` only a declared read's is. */
  function FilterNameSource(e: Edge, s: Selector, caller: Option<Value>, route: Option<Values>, author: Author,
                            name: string): Option<Value> {
    var authored := Or(Lookup(Provided(author), name), Lookup(Hooks(SeatOf(e, s), author), name));
    var fixed := Or(authored, Lookup(Captures(route, {name}), name));
    if name in Hidden(s) || (e.bundled && name !in Asked(s)) then fixed else Or(fixed, caller)
  }

  /** Any other name: an author's value, then, for a read, the caller's less what the provider owns, and for a
      name a callable hides, the route's. */
  function OtherNameSource(e: Edge, s: Selector, caller: Option<Value>, route: Option<Values>, author: Author,
                           name: string): Option<Value> {
    var authored := Or(GivenOf(Provided(author), name), GivenOf(Hooks(SeatOf(e, s), author), name));
    if name in Reads(e, s) then Or(authored, if name in author.filled then None else caller)
    else if name in Hidden(s) && name !in Reserved(e) then Or(authored, Lookup(Captures(route, {name}), name))
    else authored
  }

  /** Where a parameter's value comes from: a seed, else what its name's own sources give. */
  function SourceOf(e: Edge, s: Selector, caller: Option<Value>, route: Option<Values>, author: Author, seeds: Values,
                    name: string): Option<Value> {
    if name in seeds then Some(seeds[name])
    else if name in s.filter then FilterNameSource(e, s, caller, route, author, name)
    else OtherNameSource(e, s, caller, route, author, name)
  }

  predicate OnAChannel(name: string) { SERVER_CHANNEL <= name }

  /** No name a spec, a call or its authors use is a server channel's. */
  ghost predicate NamesNoChannel(e: Edge, s: Selector, author: Author) {
    forall name :: OnAChannel(name) ==>
      && name !in Reads(e, s) && name !in Reserved(e) && name !in ServerOwned(s)
      && name !in author.hooks && name !in Provided(author)
  }

  lemma ChannelOf(name: string)
    ensures OnAChannel(ServerChannel(name)) && ServerChannel(name)[|SERVER_CHANNEL|..] == name
            && OwnName(ServerChannel(name)) == name
  {
  }

  /** With no field to name, a key claims the argument of its own name alone. */
  lemma SplitByName(names: set<string>, values: Values, name: string)
    ensures var split := SplitOf(names, map[], values);
      && Lookup(split.rest, name) == (if name in names then None else GivenOf(values, name))
      && Lookup(split.routed, name) == (if name in names then GivenOf(values, name) else None)
  {
    SplitOfIsSplit(names, map[], values);
    assert Claims(names, map[], values, name) <==> Gives(values, name) && name in names;
    var split := SplitOf(names, map[], values);
    if name in split.routed {
      assert name in split.authored;
    }
    if Claims(names, map[], values, name) {
      assert Target(names, map[], name) == name;
    }
  }

  lemma SumAt(one: Values, two: Values, name: string)
    ensures Lookup(one + two, name) == Or(Lookup(two, name), Lookup(one, name))
  {
  }

  lemma OnTheServersChannelAt(shadowed: set<string>, values: Values, name: string)
    requires ServerChannel(name) !in values && ServerChannel(name) !in shadowed
    ensures !OnAChannel(name) ==>
      Lookup(OnTheServersChannel(shadowed, values), name) == if name in shadowed then None else Lookup(values, name)
    ensures Lookup(OnTheServersChannel(shadowed, values), ServerChannel(name))
        == if name in shadowed then Lookup(values, name) else None
  {
    ChannelOf(name);
  }

  /** What goes on beside the arguments is what is channelled, else what the provider's split leaves, else the
      hooks'. */
  lemma RestSum(seat: Seat, author: Author, name: string)
    requires Injective(seat.wire) && Routing(seat, author).Routed?
    ensures Lookup(Routing(seat, author).rest, name)
         == Or(Lookup(Channelled(seat.shadowed, Both(seat, author)), name),
               Or(Lookup(ProvidedSplit(seat, author).rest, name), Lookup(HookSplit(seat, author).rest, name)))
  {
    SumAt(HookSplit(seat, author).rest, ProvidedSplit(seat, author).rest, name);
    SumAt(HookSplit(seat, author).rest + ProvidedSplit(seat, author).rest,
          Channelled(seat.shadowed, Both(seat, author)), name);
  }

  lemma ChannelledAt(shadowed: set<string>, both: Values, name: string)
    ensures Lookup(Channelled(shadowed, both), ServerChannel(name))
        == if name in shadowed then Lookup(both, name) else None
    ensures !OnAChannel(name) ==> name !in Channelled(shadowed, both)
  {
    ChannelOf(name);
  }

  lemma RestAt(seat: Seat, author: Author, name: string)
    requires seat.wire == map[] && Routing(seat, author).Routed? && !OnAChannel(name)
    ensures Lookup(Routing(seat, author).rest, name)
         == if name in seat.names then None
            else Or(GivenOf(ProvidedSplitValues(seat, Provided(author)), name),
                    GivenOf(HookSplitValues(seat, Hooks(seat, author)), name))
  {
    RestSum(seat, author, name);
    ChannelledAt(seat.shadowed, Both(seat, author), name);
    SplitByName(seat.names, HookSplitValues(seat, Hooks(seat, author)), name);
    SplitByName(seat.names, ProvidedSplitValues(seat, Provided(author)), name);
  }

  lemma RestOnChannel(seat: Seat, author: Author, name: string)
    requires seat.wire == map[] && Routing(seat, author).Routed?
    requires ServerChannel(name) !in author.hooks && ServerChannel(name) !in Provided(author)
    ensures Lookup(Routing(seat, author).rest, ServerChannel(name))
         == if name in seat.shadowed then Lookup(Both(seat, author), name) else None
  {
    RestSum(seat, author, ServerChannel(name));
    ChannelledAt(seat.shadowed, Both(seat, author), name);
    SplitByName(seat.names, HookSplitValues(seat, Hooks(seat, author)), ServerChannel(name));
    SplitByName(seat.names, ProvidedSplitValues(seat, Provided(author)), ServerChannel(name));
  }

  /** What the authors give for a name. */
  function GivenBy(seat: Seat, author: Author, name: string): Option<Value> {
    Or(GivenOf(Provided(author), name), GivenOf(Hooks(seat, author), name))
  }

  lemma PlainRestAt(seat: Seat, author: Author, name: string)
    requires seat.wire == map[] && Routing(seat, author).Routed?
    requires !OnAChannel(name) && name !in seat.filtered && name !in seat.shadowed
    ensures Lookup(Routing(seat, author).rest, name) == if name in seat.names then None else GivenBy(seat, author, name)
  {
    RestAt(seat, author, name);
  }

  /** An extra under a name of its own: an author's value no argument took, else the route's of a hidden name. */
  lemma ExtraAt(e: Edge, s: Selector, route: Option<Values>, author: Author, name: string)
    requires NamesNoChannel(e, s, author) && Routing(SeatOf(e, s), author).Routed? && !OnAChannel(name)
             && name !in s.filter
    ensures Lookup(ExtraOf(e, s, route, author), name)
         == Or(if name in Reads(e, s) then None else GivenBy(SeatOf(e, s), author, name),
               Lookup(HiddenCaptures(e, s, route), name))
  {
    RestStaysPut(e, s, author);
    PlainRestAt(SeatOf(e, s), author, name);
    SumOfExtras(Shadowed(s), HiddenCaptures(e, s, route), Routing(SeatOf(e, s), author).rest, name);
  }

  lemma SumOfExtras(shadowed: set<string>, captures: Values, rest: Values, name: string)
    requires !OnAChannel(name) && name !in shadowed && OnTheServersChannel(shadowed, rest) == rest
    ensures Lookup(OnTheServersChannel(shadowed, captures) + OnTheServersChannel(shadowed, rest), name)
         == Or(Lookup(rest, name), Lookup(captures, name))
  {
    UnshadowedAt(shadowed, captures, name);
    SumAt(OnTheServersChannel(shadowed, captures), rest, name);
  }

  lemma UnshadowedAt(shadowed: set<string>, values: Values, name: string)
    requires !OnAChannel(name) && name !in shadowed
    ensures Lookup(OnTheServersChannel(shadowed, values), name) == Lookup(values, name)
  {
  }

  /** What no argument took names no filter, so none of it is moved to a channel. */
  lemma RestStaysPut(e: Edge, s: Selector, author: Author)
    requires NamesNoChannel(e, s, author) && Routing(SeatOf(e, s), author).Routed?
    ensures OnTheServersChannel(Shadowed(s), Routing(SeatOf(e, s), author).rest) == Routing(SeatOf(e, s), author).rest
  {
    var rest := Routing(SeatOf(e, s), author).rest;
    forall name | name in Shadowed(s) ensures name !in rest {
      RestAt(SeatOf(e, s), author, name);
    }
    NothingMoved(Shadowed(s), rest);
  }

  lemma NothingMoved(shadowed: set<string>, values: Values)
    requires forall name :: name in shadowed ==> name !in values
    ensures OnTheServersChannel(shadowed, values) == values
  {
    assert shadowed * values.Keys == {};
  }

  /** An extra on a server channel: an author's answer for a name the filter reads and a callable hides, else
      the route's. */
  lemma ExtraOnChannel(e: Edge, s: Selector, route: Option<Values>, author: Author, name: string)
    requires NamesNoChannel(e, s, author) && Routing(SeatOf(e, s), author).Routed?
    ensures Lookup(ExtraOf(e, s, route, author), ServerChannel(name))
         == if name !in Shadowed(s) then None
            else Or(Or(Lookup(Provided(author), name), Lookup(Hooks(SeatOf(e, s), author), name)),
                    Lookup(HiddenCaptures(e, s, route), name))
  {
    ChannelOf(name);
    RestStaysPut(e, s, author);
    RestOnChannel(SeatOf(e, s), author, name);
    OnTheServersChannelAt(Shadowed(s), HiddenCaptures(e, s, route), name);
    SumAt(Hooks(SeatOf(e, s), author), Provided(author), name);
    SumAt(OnTheServersChannel(Shadowed(s), HiddenCaptures(e, s, route)), Routing(SeatOf(e, s), author).rest,
          ServerChannel(name));
  }

  /** The extras a call ends with name none of its arguments and none of its seeds, as the kernel asks. */
  lemma ExtrasNameNoArgument(e: Edge, s: Selector, route: Option<Values>, author: Author, name: string)
    requires Registers(e, s) && NamesNoChannel(e, s, author) && Routing(SeatOf(e, s), author).Routed?
    requires name in ExtraOf(e, s, route, author)
    ensures name !in Reads(e, s) && name !in Reserved(e)
  {
    var rest := Routing(SeatOf(e, s), author).rest;
    if !OnAChannel(name) {
      RestStaysPut(e, s, author);
      if name in rest {
        RestAt(SeatOf(e, s), author, name);
        RestNamesNoArgument(SeatOf(e, s), author, name);
      } else {
        assert name in OnTheServersChannel(Shadowed(s), HiddenCaptures(e, s, route));
        ChannelOf(name);
        OnTheServersChannelAt(Shadowed(s), HiddenCaptures(e, s, route), name);
        OwnedReadsAreTheFilters(e, s);
      }
    }
  }

  lemma OwnNameAt(values: Values, name: string)
    requires !OnAChannel(name)
    ensures Lookup(OwnNames(values), name) == Or(Lookup(values, ServerChannel(name)), Lookup(values, name))
  {
    ChannelOf(name);
    var owned := set k | k in values :: OwnName(k);
    if name in owned {
      var k :| k in values && OwnName(k) == name;
      assert k == name || k == ServerChannel(name);
    }
    if name in values {
      assert OwnName(name) == name;
    }
    if ServerChannel(name) in values {
      assert OwnName(ServerChannel(name)) in owned;
    }
  }

  lemma BesideItsFilterAt(s: Selector, fn: Callable, beside: Values, pool: Values, name: string)
    requires fn.open || name in Signature(s, fn)
    ensures Lookup(BesideItsFilter(s, fn, beside, pool), name)
        == if name in s.filter then Lookup(beside, name) else Lookup(pool, name)
  {
    if name in s.filter && !fn.open {
      assert name in s.filter * Signature(s, fn);
    }
  }

  /** Whether a callable is handed a name under the name itself: one it names, or any other its `**kwargs` takes,
      the keys of its `TypedDict` among them. Where it has no parameter of its own on a channel, its wrapper gives
      no name back its own, so a name on one stays there. */
  predicate TakesByName(s: Selector, fn: Callable, name: string) {
    name in fn.named || (fn.open && (name !in Moved(s) || Renamed(s, fn) != {}))
  }

  /** A name a callable takes is handed off its channel where the filter reads it and a callable hides it, off
      the side of the filter where the filter reads it, and off the pool otherwise. */
  lemma HandedAt(s: Selector, fn: Callable, beside: Values, pool: Values, name: string)
    requires TakesByName(s, fn, name) && !OnAChannel(name) && (name in Moved(s) ==> name !in beside)
    requires forall k :: k in s.filter ==> !OnAChannel(k)
    requires name !in Moved(s) ==> ServerChannel(name) !in pool
    ensures Lookup(Handed(s, fn, beside, pool), name)
         == if name in Moved(s) then Lookup(pool, ServerChannel(name))
            else if name in s.filter then Lookup(beside, name)
            else Lookup(pool, name)
  {
    ChannelOf(name);
    var kwargs := BesideItsFilter(s, fn, beside, pool);
    OwnNameAt(kwargs, name);
    if name in Moved(s) {
      assert name in fn.named ==> name in Renamed(s, fn);
      assert fn.open || ServerChannel(name) in Signature(s, fn);
      BesideItsFilterAt(s, fn, beside, pool, ServerChannel(name));
      assert name !in kwargs by {
        if fn.open {
          BesideItsFilterAt(s, fn, beside, pool, name);
        } else {
          assert name !in Signature(s, fn);
        }
      }
    } else {
      assert fn.open || name in Signature(s, fn);
      BesideItsFilterAt(s, fn, beside, pool, name);
      assert ServerChannel(name) !in kwargs;
    }
  }

  /** A `**kwargs` with no parameter of its own on a channel is handed nothing under a moved name, and the
      server's value under the channel's. */
  lemma LeftOnItsChannel(s: Selector, fn: Callable, beside: Values, pool: Values, name: string)
    requires fn.open && Renamed(s, fn) == {} && name in Moved(s) && name !in beside
    requires forall k :: k in s.filter ==> !OnAChannel(k)
    ensures name !in Handed(s, fn, beside, pool)
    ensures Lookup(Handed(s, fn, beside, pool), ServerChannel(name)) == Lookup(pool, ServerChannel(name))
  {
    ChannelOf(name);
    BesideItsFilterAt(s, fn, beside, pool, name);
    BesideItsFilterAt(s, fn, beside, pool, ServerChannel(name));
  }

  // --- the theorem, by where the name stands

  /** A name `fn` takes, by itself or by its `**kwargs`. */
  ghost predicate Named(e: Edge, s: Selector, author: Author, seeds: Values, fn: Callable, name: string) {
    && Registers(e, s) && fn in Callables(s) && (name in fn.named || fn.open) && !OnAChannel(name)
    && seeds.Keys <= Reserved(e) && NamesNoChannel(e, s, author)
  }

  lemma PoolAt(e: Edge, s: Selector, p: Prepared, seeds: Values, name: string)
    ensures Lookup(Pool(e, s, p, seeds), name)
         == Or(Lookup(seeds, name), Or(if name in Reads(e, s) then Lookup(p.arguments, name) else None,
                                       Lookup(p.extra, name)))
  {
  }

  lemma NamedIsPlain(e: Edge, s: Selector, author: Author, seeds: Values, fn: Callable, name: string)
    requires Named(e, s, author, seeds, fn, name)
    ensures ServerChannel(name) !in seeds && ServerChannel(name) !in Reads(e, s)
    ensures name in s.filter ==> name !in seeds && (name in Shadowed(s) <==> name in Hidden(s))
    ensures Moved(s) == Shadowed(s)
  {
    ChannelOf(name);
  }

  lemma HiddenCaptureAt(e: Edge, s: Selector, route: Option<Values>, name: string)
    ensures Lookup(HiddenCaptures(e, s, route), name)
         == if name in ServerOwned(s) && name !in Reserved(e) then Lookup(Captures(route, {name}), name) else None
  {
  }

  /** What the pool holds on a name's server channel. */
  lemma PoolOnChannel(e: Edge, s: Selector, p: Prepared, route: Option<Values>, author: Author, seeds: Values,
                      fn: Callable, name: string)
    requires Named(e, s, author, seeds, fn, name) && Routing(SeatOf(e, s), author).Routed?
    requires p.extra == ExtraOf(e, s, route, author)
    ensures Lookup(Pool(e, s, p, seeds), ServerChannel(name))
         == if name !in Shadowed(s) then None
            else Or(Or(Lookup(Provided(author), name), Lookup(Hooks(SeatOf(e, s), author), name)),
                    Lookup(HiddenCaptures(e, s, route), name))
  {
    NamedIsPlain(e, s, author, seeds, fn, name);
    PoolAt(e, s, p, seeds, ServerChannel(name));
    ExtraOnChannel(e, s, route, author, name);
  }

  lemma AuthoredBeside(e: Edge, s: Selector, author: Author, name: string)
    requires Routing(SeatOf(e, s), author).Routed?
    ensures Lookup(Routing(SeatOf(e, s), author).beside, name)
         == if name !in BesideNames(s) then None
            else Or(Lookup(Provided(author), name), Lookup(Hooks(SeatOf(e, s), author), name))
  {
    SumAt(Hooks(SeatOf(e, s), author), Provided(author), name);
  }

  lemma SentBeside(e: Edge, s: Selector, received: Values, route: Option<Values>, name: string)
    ensures Lookup(BesideFilter(e, s, received, route), name)
         == if name !in BesideNames(s) then None
            else Or(Lookup(Captures(route, {name}), name),
                    if e.bundled && name !in Asked(s) then None else Lookup(received, name))
  {
  }

  lemma BesideAt(e: Edge, s: Selector, received: Values, route: Option<Values>, author: Author, data: Option<Params>,
                 name: string)
    requires Routing(SeatOf(e, s), author).Routed?
    ensures Lookup(PreparedOf(e, s, received, route, author, data).beside, name)
         == if name !in BesideNames(s) then None
            else Or(Or(Lookup(Provided(author), name), Lookup(Hooks(SeatOf(e, s), author), name)),
                    Or(Lookup(Captures(route, {name}), name),
                       if e.bundled && name !in Asked(s) then None else Lookup(received, name)))
  {
    AuthoredBeside(e, s, author, name);
    SentBeside(e, s, received, route, name);
    SumAt(BesideFilter(e, s, received, route), Routing(SeatOf(e, s), author).beside, name);
  }

  /** No two of the names a callable is handed, of a prepared call, are one once a channel is stripped. */
  lemma NoTwoStripToOne(e: Edge, s: Selector, received: Values, route: Option<Values>, author: Author,
                        data: Option<Params>, seeds: Values, fn: Callable, name: string)
    requires Registers(e, s) && fn in Callables(s) && !OnAChannel(name) && Routing(SeatOf(e, s), author).Routed?
    requires seeds.Keys <= Reserved(e) && NamesNoChannel(e, s, author) && forall k :: k in fn.named ==> !OnAChannel(k)
    ensures var p := PreparedOf(e, s, received, route, author, data);
            var kwargs := BesideItsFilter(s, fn, p.beside, Pool(e, s, p, seeds));
            !(name in kwargs && ServerChannel(name) in kwargs)
  {
    var p := PreparedOf(e, s, received, route, author, data);
    if fn.open {
      BesideAt(e, s, received, route, author, data, name);
      NamedIsPlain(e, s, author, seeds, fn, name);
      PoolOnChannel(e, s, p, route, author, seeds, fn, name);
      OpenStripsToOne(s, fn, p.beside, Pool(e, s, p, seeds), name);
    } else {
      ClosedStripsToOne(s, fn, p.beside, Pool(e, s, p, seeds), name);
    }
  }

  lemma OpenStripsToOne(s: Selector, fn: Callable, beside: Values, pool: Values, name: string)
    requires fn.open && (name in Moved(s) ==> name !in beside) && ServerChannel(name) !in s.filter
    requires name !in Moved(s) ==> ServerChannel(name) !in pool
    ensures var kwargs := BesideItsFilter(s, fn, beside, pool); !(name in kwargs && ServerChannel(name) in kwargs)
  {
    BesideItsFilterAt(s, fn, beside, pool, name);
    BesideItsFilterAt(s, fn, beside, pool, ServerChannel(name));
  }

  lemma ClosedStripsToOne(s: Selector, fn: Callable, beside: Values, pool: Values, name: string)
    requires !fn.open && !OnAChannel(name) && forall k :: k in fn.named ==> !OnAChannel(k)
    ensures var kwargs := BesideItsFilter(s, fn, beside, pool); !(name in kwargs && ServerChannel(name) in kwargs)
  {
    ChannelOf(name);
    if name in Renamed(s, fn) {
      assert name !in Signature(s, fn);
    } else {
      assert ServerChannel(name) !in Signature(s, fn);
    }
  }

  lemma FilterParameter(e: Edge, s: Selector, received: Values, route: Option<Values>, author: Author,
                        data: Option<Params>,
                        seeds: Values, fn: Callable, name: string)
    requires Named(e, s, author, seeds, fn, name) && TakesByName(s, fn, name)
    requires name in s.filter && Routing(SeatOf(e, s), author).Routed?
    ensures var p := PreparedOf(e, s, received, route, author, data);
            Lookup(Handed(s, fn, p.beside, Pool(e, s, p, seeds)), name)
                == FilterNameSource(e, s, Lookup(received, name), route, author, name)
  {
    var p := PreparedOf(e, s, received, route, author, data);
    NamedIsPlain(e, s, author, seeds, fn, name);
    PoolOnChannel(e, s, p, route, author, seeds, fn, name);
    BesideAt(e, s, received, route, author, data, name);
    HandedAt(s, fn, p.beside, Pool(e, s, p, seeds), name);
    HiddenCaptureAt(e, s, route, name);
  }

  lemma RoutedAt(seat: Seat, author: Author, arguments: Values, name: string)
    requires Injective(seat.wire)
    ensures Lookup(RoutedArguments(seat, author, arguments), name)
         == Or(Lookup(ProvidedSplit(seat, author).routed, name),
               Or(Lookup(HookSplit(seat, author).routed, name),
                  Lookup(arguments - (Owned(seat, author.filled) - seat.fields), name)))
  {
    var left := arguments - (Owned(seat, author.filled) - seat.fields);
    SumAt(left, HookSplit(seat, author).routed, name);
    SumAt(left + HookSplit(seat, author).routed, ProvidedSplit(seat, author).routed, name);
  }

  lemma HookRoutedAt(seat: Seat, author: Author, name: string)
    requires seat.wire == map[] && name in seat.names && name !in seat.filtered && name !in seat.shadowed
    ensures Lookup(HookSplit(seat, author).routed, name) == GivenOf(Hooks(seat, author), name)
  {
    SplitByName(seat.names, HookSplitValues(seat, Hooks(seat, author)), name);
  }

  lemma ProvidedRoutedAt(seat: Seat, author: Author, name: string)
    requires seat.wire == map[] && name in seat.names && name !in seat.shadowed
    ensures Lookup(ProvidedSplit(seat, author).routed, name) == GivenOf(Provided(author), name)
  {
    SplitByName(seat.names, ProvidedSplitValues(seat, Provided(author)), name);
  }

  lemma ArgumentAt(seat: Seat, author: Author, arguments: Values, name: string)
    requires seat.wire == map[] && seat.fields == {} && name in seat.names && name !in seat.filtered
             && name !in seat.shadowed
    ensures Lookup(RoutedArguments(seat, author, arguments), name)
         == Or(Or(GivenOf(Provided(author), name), GivenOf(Hooks(seat, author), name)),
               if name in author.filled then None else Lookup(arguments, name))
  {
    RoutedAt(seat, author, arguments, name);
    HookRoutedAt(seat, author, name);
    ProvidedRoutedAt(seat, author, name);
    UnownedAt(seat, author.filled, arguments, name);
  }

  lemma UnownedAt(seat: Seat, filled: set<string>, arguments: Values, name: string)
    requires seat.fields == {} && name !in seat.shadowed
    ensures Lookup(arguments - (Owned(seat, filled) - seat.fields), name)
        == if name in filled then None else Lookup(arguments, name)
  {
  }

  lemma FilteringLeaves(e: Edge, s: Selector, received: Values, data: Option<Params>, name: string)
    requires name !in s.filter
    ensures Lookup(ReadByFilter(e, s, FilterRouted(e, s, received, data)), name) == Lookup(received, name)
  {
  }

  lemma ReadInPool(e: Edge, s: Selector, received: Values, route: Option<Values>, author: Author, data: Option<Params>,
                   seeds: Values, name: string)
    requires Registers(e, s) && NamesNoChannel(e, s, author) && !OnAChannel(name)
             && Routing(SeatOf(e, s), author).Routed?
    requires name in Reads(e, s) && name !in s.filter && name !in seeds
    ensures Lookup(Pool(e, s, PreparedOf(e, s, received, route, author, data), seeds), name)
         == OtherNameSource(e, s, Lookup(received, name), route, author, name)
  {
    PoolAt(e, s, PreparedOf(e, s, received, route, author, data), seeds, name);
    OwnedReadsAreTheFilters(e, s);
    ExtraAt(e, s, route, author, name);
    HiddenCaptureAt(e, s, route, name);
    FilteringLeaves(e, s, received, data, name);
    ArgumentAt(SeatOf(e, s), author, ReadByFilter(e, s, FilterRouted(e, s, received, data)), name);
  }

  lemma ExtraInPool(e: Edge, s: Selector, received: Values, route: Option<Values>, author: Author,
                    data: Option<Params>, seeds: Values, name: string)
    requires Registers(e, s) && NamesNoChannel(e, s, author) && !OnAChannel(name)
             && Routing(SeatOf(e, s), author).Routed?
    requires name !in Reads(e, s) && name !in seeds && "view" in Reserved(e)
    ensures Lookup(Pool(e, s, PreparedOf(e, s, received, route, author, data), seeds), name)
         == OtherNameSource(e, s, Lookup(received, name), route, author, name)
  {
    PoolAt(e, s, PreparedOf(e, s, received, route, author, data), seeds, name);
    ExtraAt(e, s, route, author, name);
    HiddenCaptureAt(e, s, route, name);
  }

  lemma OtherParameter(e: Edge, s: Selector, received: Values, route: Option<Values>, author: Author,
                       data: Option<Params>,
                       seeds: Values, fn: Callable, name: string)
    requires Named(e, s, author, seeds, fn, name) && name !in s.filter && Routing(SeatOf(e, s), author).Routed?
    ensures var p := PreparedOf(e, s, received, route, author, data);
            Lookup(Handed(s, fn, p.beside, Pool(e, s, p, seeds)), name)
                == SourceOf(e, s, Lookup(received, name), route, author, seeds, name)
  {
    var p := PreparedOf(e, s, received, route, author, data);
    NamedIsPlain(e, s, author, seeds, fn, name);
    PoolOnChannel(e, s, p, route, author, seeds, fn, name);
    HandedAt(s, fn, p.beside, Pool(e, s, p, seeds), name);
    if name in seeds {
      PoolAt(e, s, p, seeds, name);
    } else if name in Reads(e, s) {
      ReadInPool(e, s, received, route, author, data, seeds, name);
    } else {
      ExtraInPool(e, s, received, route, author, data, seeds, name);
    }
  }

  lemma AnyParameter(e: Edge, s: Selector, received: Values, route: Option<Values>, author: Author,
                     data: Option<Params>,
                     seeds: Values, fn: Callable, name: string)
    requires Named(e, s, author, seeds, fn, name) && TakesByName(s, fn, name) && Routing(SeatOf(e, s), author).Routed?
    ensures var p := PreparedOf(e, s, received, route, author, data);
            Lookup(Handed(s, fn, p.beside, Pool(e, s, p, seeds)), name)
                == SourceOf(e, s, Lookup(received, name), route, author, seeds, name)
  {
    if name in s.filter {
      NamedIsPlain(e, s, author, seeds, fn, name);
      FilterParameter(e, s, received, route, author, data, seeds, fn, name);
    } else {
      OtherParameter(e, s, received, route, author, data, seeds, fn, name);
    }
  }

  lemma HandedByRouted(e: Edge, s: Selector, received: Values, route: Option<Values>, query: Option<Query>,
                       data: Option<Params>, seeds: Values, fn: Callable)
    ensures var author := AuthorOf(e, s, route, query);
            var handed := HandedBy(e, s, PrepareFrom(e, s, received, route, query, data), seeds, fn);
            && (handed.Some? <==> Routing(SeatOf(e, s), author).Routed?)
            && (handed.Some? ==>
                  var p := PreparedOf(e, s, received, route, author, data);
                           handed.value == Handed(s, fn, p.beside, Pool(e, s, p, seeds)))
  {
  }

  lemma LeftParameter(e: Edge, s: Selector, received: Values, route: Option<Values>, author: Author,
                      data: Option<Params>,
                      seeds: Values, fn: Callable, name: string)
    requires Named(e, s, author, seeds, fn, name) && !TakesByName(s, fn, name) && Routing(SeatOf(e, s), author).Routed?
    ensures var p := PreparedOf(e, s, received, route, author, data);
            var handed := Handed(s, fn, p.beside, Pool(e, s, p, seeds));
            && name !in handed
            && Lookup(handed, ServerChannel(name))
            == FilterNameSource(e, s, Lookup(received, name), route, author, name)
  {
    var p := PreparedOf(e, s, received, route, author, data);
    NamedIsPlain(e, s, author, seeds, fn, name);
    BesideAt(e, s, received, route, author, data, name);
    LeftOnItsChannel(s, fn, p.beside, Pool(e, s, p, seeds), name);
    PoolOnChannel(e, s, p, route, author, seeds, fn, name);
    HiddenCaptureAt(e, s, route, name);
  }

  /** Every name a callable takes, a parameter or a key of its `**kwargs`, is handed exactly what its source gives,
      and nothing where none does; but a name a filter reads and a callable hides, which a `**kwargs` beside no such
      parameter of its own is handed under its server channel instead. */
  lemma EveryParameterHasOneSource(e: Edge, s: Selector, received: Values, route: Option<Values>, query: Option<Query>,
                                   data: Option<Params>, seeds: Values, fn: Callable, name: string)
    requires Named(e, s, AuthorOf(e, s, route, query), seeds, fn, name)
    ensures var handed := HandedBy(e, s, PrepareFrom(e, s, received, route, query, data), seeds, fn);
            var source := SourceOf(e, s, Lookup(received, name), route, AuthorOf(e, s, route, query), seeds, name);
            handed.Some? ==>
              if TakesByName(s, fn, name) then Lookup(handed.value, name) == source
              else name !in handed.value && Lookup(handed.value, ServerChannel(name)) == source
  {
    var author := AuthorOf(e, s, route, query);
    HandedByRouted(e, s, received, route, query, data, seeds, fn);
    if Routing(SeatOf(e, s), author).Routed? {
      if TakesByName(s, fn, name) {
        AnyParameter(e, s, received, route, author, data, seeds, fn, name);
      } else {
        NamedIsPlain(e, s, author, seeds, fn, name);
        LeftParameter(e, s, received, route, author, data, seeds, fn, name);
      }
    }
  }

  // --- from the wire

  /** What the caller's params, route and query string make a name's argument: nothing of a seed's name; under
      `BUNDLE` the route's capture alone for a parameter of the selector's own; and else what its channel or the
      params hold. */
  function CallersValue(e: Edge, s: Selector, w: Wire, params: Params, name: string): Option<Value> {
    var own := name in Reads(e, s) && name !in s.url && name !in s.query && name !in s.filter;
    if name in e.poolSeeds || name in e.registered || name == "request" || name == "serializer" then None
    else if e.bundled && own then CaptureOf(e.c, w, name)
    else ArgumentSource(e.c, ChannelsOf(e, s), w, params, name)
  }

  lemma ReceivedIsTheCallers(e: Edge, s: Selector, w: Wire, params: Params, name: string)
    ensures Lookup(Received(e, s, w, params), name) == CallersValue(e, s, w, params, name)
  {
    ArgumentsComeFromTheirChannels(e.c, ChannelsOf(e, s), w, params, name);
    assert name in CallerNames(e, s) ==>
      (name in Keys(RouteAfter(e.c, ChannelsOf(e, s), w, params)) <==> name in Keys(w.route));
  }

  /** The authors of a call: the view's hooks, and what the spec's provider answers the route and the query string as
      the edge left them, with the keys it is annotated to fill. */
  ghost predicate AuthorsOf(e: Edge, s: Selector, route: Option<Values>, query: Option<Query>, author: Author) {
    && author.hooks == e.hooks && author.filled == s.filled
    && author.provided == match s.provider case None => None case Some(provider) => Some(provider(route, query))
  }

  /** Every name a callable takes, of a whole call: what its source gives, the caller's as its params, route and query
      string make it. */
  lemma EveryParameterFromTheWire(e: Edge, s: Selector, w: Wire, params: Params, data: Option<Params>, seeds: Values,
                                  fn: Callable, name: string)
    requires Named(e, s, AuthorOf(e, s, RouteAfter(e.c, ChannelsOf(e, s), w, params),
                                  QueryAfter(e.c, ChannelsOf(e, s), w, params)), seeds, fn, name)
    ensures var handed := HandedBy(e, s, Prepare(e, s, w, params, data), seeds, fn);
            var route := RouteAfter(e.c, ChannelsOf(e, s), w, params);
            var query := QueryAfter(e.c, ChannelsOf(e, s), w, params);
            var author := AuthorOf(e, s, route, query);
            var source := SourceOf(e, s, CallersValue(e, s, w, params, name), route, author, seeds, name);
            && AuthorsOf(e, s, route, query, author)
            && (handed.Some? <==> !NamesASeed(SeatOf(e, s), author))
            && (handed.Some? ==>
                if TakesByName(s, fn, name) then Lookup(handed.value, name) == source
                else name !in handed.value && Lookup(handed.value, ServerChannel(name)) == source)
  {
    var d := ChannelsOf(e, s);
    var received, route, query := Received(e, s, w, params), RouteAfter(e.c, d, w, params),
        QueryAfter(e.c, d, w, params);
    ReceivedIsTheCallers(e, s, w, params, name);
    HandedByRouted(e, s, received, route, query, data, seeds, fn);
    EveryParameterHasOneSource(e, s, received, route, query, data, seeds, fn, name);
  }

  /** Whether the authors or the seeds have anything to say of a name. */
  predicate SaidOf(e: Edge, author: Author, seeds: Values, name: string) {
    || name in seeds || name in author.filled
    || Gives(Provided(author), name) || Gives(author.hooks, name)
  }

  /** So a parameter of the selector's own, of no channel and no filter's, which nobody on the server says anything
      of, is the route's coerced capture, else the value the caller sent; and nothing in its place under `BUNDLE`
      alone. */
  lemma AnOwnParameterIsTheCallers(e: Edge, s: Selector, w: Wire, params: Params, data: Option<Params>, seeds: Values,
                                   name: string)
    requires name in s.selector.named + s.selector.keys && name !in s.url + s.query + s.filter + Hidden(s)
    requires name !in Reserved(e) + {"user", "serializer"}
    requires var author := AuthorOf(e, s, RouteAfter(e.c, ChannelsOf(e, s), w, params),
                                    QueryAfter(e.c, ChannelsOf(e, s), w, params));
             Named(e, s, author, seeds, s.selector, name) && !SaidOf(e, author, seeds, name)
    ensures var handed := HandedBy(e, s, Prepare(e, s, w, params, data), seeds, s.selector);
            handed.Some? ==>
              Lookup(handed.value, name)
              == Or(CaptureOf(e.c, w, name), if e.bundled then None else ParamOf(e.c, params, name))
  {
    EveryParameterFromTheWire(e, s, w, params, data, seeds, s.selector, name);
    OwnIsTheCallers(e, s, w, params, name);
  }

  /** A name the caller may fill: a parameter or a `TypedDict` key of the selector's own that no callable hides and
      that names none of the call's own seeds, a read declared as no shape, or one the filter reads. */
  ghost predicate CallersToFill(e: Edge, s: Selector, name: string) {
    || (name in s.selector.named + s.selector.keys && (forall fn :: fn in Callables(s) ==> name !in fn.marked)
        && name !in e.poolSeeds && name !in {"request", "view", "user", "serializer"})
    || ((name in s.url || name in s.query) && name !in s.shapes)
    || name in s.filter
  }

  lemma ReadsAreTheCallersToFill(e: Edge, s: Selector, name: string)
    ensures name in Reads(e, s) <==> CallersToFill(e, s, name)
  {
  }

  /** Any other name is no caller's: a callable is handed a seed, an author's value or, where one hides it, the
      route's, whatever the params are. */
  lemma NoOtherNameIsTheCallers(e: Edge, s: Selector, w: Wire, params: Params, data: Option<Params>, seeds: Values,
                                fn: Callable, name: string)
    requires !CallersToFill(e, s, name)
    requires var author := AuthorOf(e, s, RouteAfter(e.c, ChannelsOf(e, s), w, params),
                                    QueryAfter(e.c, ChannelsOf(e, s), w, params));
             Named(e, s, author, seeds, fn, name)
    ensures var handed := HandedBy(e, s, Prepare(e, s, w, params, data), seeds, fn);
            var route := RouteAfter(e.c, ChannelsOf(e, s), w, params);
            var author := AuthorOf(e, s, route, QueryAfter(e.c, ChannelsOf(e, s), w, params));
            handed.Some? ==>
              Lookup(handed.value, name)
              == if name in seeds then Some(seeds[name])
                 else Or(GivenBy(SeatOf(e, s), author, name),
                         if name in Hidden(s) && name !in Reserved(e) then Lookup(Captures(route, {name}), name)
                         else None)
  {
    ReadsAreTheCallersToFill(e, s, name);
    EveryParameterFromTheWire(e, s, w, params, data, seeds, fn, name);
  }

  lemma OwnIsTheCallers(e: Edge, s: Selector, w: Wire, params: Params, name: string)
    requires name in Reads(e, s) && name !in s.url + s.query + s.filter + DroppedNames(e)
    ensures CallersValue(e, s, w, params, name)
         == Or(CaptureOf(e.c, w, name), if e.bundled then None else ParamOf(e.c, params, name))
  {
  }

  /** What the kernel's filter reads under each of its names: the provider's value, else what its FilterSet reads of
      `filter_data` alone where that is given, and of the caller's value otherwise; never a hook's, never a
      hidden name's author's, and of the provider's own names never the caller's. */
  lemma FilterReads(e: Edge, s: Selector, w: Wire, params: Params, data: Option<Params>, name: string)
    requires name in s.filter
    ensures var author := AuthorOf(e, s, RouteAfter(e.c, ChannelsOf(e, s), w, params),
                                   QueryAfter(e.c, ChannelsOf(e, s), w, params));
            var prepared := Prepare(e, s, w, params, data);
            var asked := if data.Some? then ParamOf(e.c, data.value, name) else CallersValue(e, s, w, params, name);
            var read := if asked.Some? then e.reading(name, asked.value) else None;
            prepared.Some? ==>
              Lookup(prepared.value.arguments, name)
              == if name in ServerOwned(s) then read
                 else Or(GivenOf(Provided(author), name), if name in author.filled then None else read)
  {
    var d := ChannelsOf(e, s);
    var received, route, query := Received(e, s, w, params), RouteAfter(e.c, d, w, params),
        QueryAfter(e.c, d, w, params);
    ReceivedIsTheCallers(e, s, w, params, name);
    if data.Some? {
      SentIsTheParams(e.c, data.value, name);
    }
    PreparedAt(e, s, received, route, query, data, name);
  }

  lemma PreparedAt(e: Edge, s: Selector, received: Values, route: Option<Values>, query: Option<Query>,
                   data: Option<Params>, name: string)
    requires name in s.filter
    ensures var author := AuthorOf(e, s, route, query);
            var prepared := PrepareFrom(e, s, received, route, query, data);
            var asked := if data.Some? then Lookup(Sent(e.c, data.value), name) else Lookup(received, name);
            var read := if asked.Some? then e.reading(name, asked.value) else None;
            prepared.Some? ==>
              Lookup(prepared.value.arguments, name)
              == if name in ServerOwned(s) then read
                 else Or(GivenOf(Provided(author), name), if name in author.filled then None else read)
  {
    var author, asked := AuthorOf(e, s, route, query), ReadByFilter(e, s, FilterRouted(e, s, received, data));
    if Routing(SeatOf(e, s), author).Routed? {
      ArgumentsPrepared(e, s, received, route, query, data);
      FilteredAt(e, s, received, data, name);
      FilterArgumentAt(SeatOf(e, s), author, asked, name);
    }
  }

  lemma ArgumentsPrepared(e: Edge, s: Selector, received: Values, route: Option<Values>, query: Option<Query>,
                          data: Option<Params>)
    ensures var author := AuthorOf(e, s, route, query);
            var prepared := PrepareFrom(e, s, received, route, query, data);
            && (prepared.Some? <==> Routing(SeatOf(e, s), author).Routed?)
            && (prepared.Some? ==>
                  prepared.value.arguments
                  == RoutedArguments(SeatOf(e, s), author, ReadByFilter(e, s, FilterRouted(e, s, received, data))))
  {
  }

  lemma FilteredAt(e: Edge, s: Selector, received: Values, data: Option<Params>, name: string)
    requires name in s.filter
    ensures var asked := if data.Some? then Lookup(Sent(e.c, data.value), name) else Lookup(received, name);
            Lookup(ReadByFilter(e, s, FilterRouted(e, s, received, data)), name)
            == if asked.Some? then e.reading(name, asked.value) else None
  {
    assert Lookup(FilterRouted(e, s, received, data), name)
        == if data.Some? then Lookup(Sent(e.c, data.value), name) else Lookup(received, name);
  }

  lemma LeftAt(seat: Seat, filled: set<string>, arguments: Values, name: string)
    requires seat.fields == {}
    ensures Lookup(arguments - (Owned(seat, filled) - seat.fields), name)
         == if name in filled && name !in seat.shadowed then None else Lookup(arguments, name)
  {
  }

  lemma FilterArgumentAt(seat: Seat, author: Author, arguments: Values, name: string)
    requires seat.wire == map[] && seat.fields == {} && name in seat.names && name in seat.filtered + seat.shadowed
    ensures Lookup(RoutedArguments(seat, author, arguments), name)
         == if name in seat.shadowed then Lookup(arguments, name)
            else Or(GivenOf(Provided(author), name), if name in author.filled then None else Lookup(arguments, name))
  {
    RoutedAt(seat, author, arguments, name);
    LeftAt(seat, author.filled, arguments, name);
    SplitByName(seat.names, HookSplitValues(seat, Hooks(seat, author)), name);
    SplitByName(seat.names, ProvidedSplitValues(seat, Provided(author)), name);
  }

  /** A selector of `**kwargs` alone beside a precondition that hides the filter's one name. */
  const OPEN_SELECTOR := Selector(Callable({}, {}, {}, true), [Callable({"q"}, {}, {"q"}, false)], {}, {}, {}, {"q"},
                                  {}, None)

  /** Whatever the client sends, a view's hook's `q` is the precondition's `q`, and the selector is handed no `q` but
      that value under the channel's name. */
  lemma AnOpenSelectorIsHandedTheChannel(e: Edge, w: Wire, params: Params, data: Option<Params>, seeds: Values)
    requires e.hooks == map["q" := Given(1)] && "q" !in Reserved(e) && seeds.Keys <= Reserved(e)
    requires forall name :: name in Reserved(e) ==> !OnAChannel(name)
    ensures var s := OPEN_SELECTOR;
            && Registers(e, s) && "q" in Moved(s) && !TakesByName(s, s.selector, "q")
            && var handed := HandedBy(e, s, Prepare(e, s, w, params, data), seeds, s.selector);
               handed.Some? && "q" !in handed.value && Lookup(handed.value, ServerChannel("q")) == Some(Given(1))
    ensures var handed := HandedBy(e, OPEN_SELECTOR, Prepare(e, OPEN_SELECTOR, w, params, data), seeds,
                                   OPEN_SELECTOR.preconditions[0]);
            handed.Some? && Lookup(handed.value, "q") == Some(Given(1))
  {
    var s, d := OPEN_SELECTOR, ChannelsOf(e, OPEN_SELECTOR);
    var received, route := Received(e, s, w, params), RouteAfter(e.c, d, w, params);
    var query := QueryAfter(e.c, d, w, params);
    OpenSelectorNames(e, seeds);
    HookAnswers(e, s, received, route, AuthorOf(e, s, route, query), "q");
    HandedAFilterName(e, s, received, route, query, data, seeds, s.selector, "q");
    HandedAFilterName(e, s, received, route, query, data, seeds, s.preconditions[0], "q");
  }

  lemma HookAnswers(e: Edge, s: Selector, received: Values, route: Option<Values>, author: Author, name: string)
    requires author.provided == None && author.filled == {}
    requires name in author.hooks && name !in Reserved(e)
    ensures FilterNameSource(e, s, Lookup(received, name), route, author, name) == Some(author.hooks[name])
  {
  }

  lemma HandedAFilterName(e: Edge, s: Selector, received: Values, route: Option<Values>, query: Option<Query>,
                          data: Option<Params>, seeds: Values, fn: Callable, name: string)
    requires Named(e, s, AuthorOf(e, s, route, query), seeds, fn, name) && name in s.filter
    requires Routing(SeatOf(e, s), AuthorOf(e, s, route, query)).Routed?
    ensures var handed := HandedBy(e, s, PrepareFrom(e, s, received, route, query, data), seeds, fn);
            var source := FilterNameSource(e, s, Lookup(received, name), route, AuthorOf(e, s, route, query), name);
            handed.Some? &&
              if TakesByName(s, fn, name) then Lookup(handed.value, name) == source
              else name !in handed.value && Lookup(handed.value, ServerChannel(name)) == source
  {
    HandedByRouted(e, s, received, route, query, data, seeds, fn);
    NamedIsPlain(e, s, AuthorOf(e, s, route, query), seeds, fn, name);
    EveryParameterHasOneSource(e, s, received, route, query, data, seeds, fn, name);
  }

  lemma OpenSelectorNames(e: Edge, seeds: Values)
    requires e.hooks == map["q" := Given(1)] && "q" !in Reserved(e) && seeds.Keys <= Reserved(e)
    requires forall name :: name in Reserved(e) ==> !OnAChannel(name)
    ensures var s, author := OPEN_SELECTOR, Author(e.hooks, None, {});
            && "q" in Moved(s) && !TakesByName(s, s.selector, "q") && TakesByName(s, s.preconditions[0], "q")
            && Named(e, s, author, seeds, s.selector, "q") && Named(e, s, author, seeds, s.preconditions[0], "q")
            && Routing(SeatOf(e, s), author).Routed?
  {
    var s := OPEN_SELECTOR;
    assert Callables(s) == [s.selector, s.preconditions[0]];
    assert s.preconditions[0] in Callables(s) && s.selector in Callables(s);
    assert "q" in Hidden(s) && ServerOwned(s) == {"view", "q"};
    assert Renamed(s, s.selector) == {};
  }
}
