/**
  A call's arguments as the edge hands them on, with the declared channels routed
  both ways: a value on the route or the query string is the argument, and off
  HTTP an argument the channel lacks is put there.
*/
module Channels {
  import opened Prelude
  import opened AuthorValues

  /** A `QueryDict`: each name's values. */
  type Query = map<string, seq<Value>>

  /** What a call sent: a mapping, a form, or something that is no object. */
  datatype Params = Mapping(values: Values) | Form(query: Query) | NoObject

  /** What reading the client's channels takes from the compiled parameters: a query string's values for a
      name, flat and coerced; a route's capture, coerced; and the list a query string holds a value as. */
  datatype Coercion = Coercion(read: (string, seq<Value>) -> Value, coerce: (string, Value) -> Value,
                               listed: Value -> seq<Value>)

  /** The names declared for each channel, those the selector or target lookup reads, and the input fields. */
  datatype Declared = Declared(url: set<string>, query: set<string>, readNames: set<string>, fields: set<string>)

  class View {
    /** Whether it dispatches a live request, rather than being the offline view a transport builds. */
    const live: bool
    /** `None` where the view carries no dict of captures. */
    var kwargs: Option<Values>

    constructor (live: bool, kwargs: Option<Values>)
      ensures this.live == live && this.kwargs == kwargs
    {
      this.live, this.kwargs := live, kwargs;
    }
  }

  class Request {
    /** `None` where `query_params` is no `QueryDict`. */
    var query: Option<Query>

    constructor (query: Option<Query>)
      ensures this.query == query
    {
      this.query := query;
    }
  }

  predicate OverHttp(view: View?) {
    view != null && view.live
  }

  function RouteOf(view: View?): Option<Values>
    reads view
  {
    if view == null then None else view.kwargs
  }

  function QueryOf(request: Request?): Option<Query>
    reads request
  {
    if request == null then None else request.query
  }

  /** The client's channels as one call finds them. */
  datatype Wire = Wire(live: bool, route: Option<Values>, query: Option<Query>)

  function Lookup(values: Values, name: string): Option<Value> {
    if name in values then Some(values[name]) else None
  }

  function Or(first: Option<Value>, second: Option<Value>): Option<Value> {
    if first.Some? then first else second
  }

  function Restrict(m: Values, names: set<string>): Values {
    map name | name in m && name in names :: m[name]
  }

  function Flat(c: Coercion, query: Query, names: set<string>): Values {
    map name | name in query && name in names :: c.read(name, query[name])
  }

  function Listed(c: Coercion, values: Values): Query {
    map name | name in values :: c.listed(values[name])
  }

  // --- what the arguments are, step by step

  function Sent(c: Coercion, params: Params): Values {
    match params
    case Mapping(values) => values
    case Form(query) => Flat(c, query, query.Keys)
    case NoObject => map[]
  }

  /** A capture of a name the call reads, or declares for the URL. */
  function Captured(c: Coercion, d: Declared, route: Option<Values>): Values {
    if route.None? then map[]
    else map name | name in route.value && (name in d.url || name in d.readNames) :: c.coerce(name, route.value[name])
  }

  function AfterRoute(c: Coercion, d: Declared, w: Wire, params: Params): Values {
    (if w.live then Sent(c, params) - d.url else Sent(c, params)) + Captured(c, d, w.route)
  }

  /** The route an offline view is left with: each URL argument it lacked. */
  function RouteAfter(c: Coercion, d: Declared, w: Wire, params: Params): Option<Values> {
    if w.live || w.route.None? then w.route
    else Some(Restrict(AfterRoute(c, d, w, params), d.url - w.route.value.Keys - d.fields) + w.route.value)
  }

  function BeforeQuery(c: Coercion, d: Declared, w: Wire, params: Params): Values {
    if w.live then AfterRoute(c, d, w, params) - d.query else AfterRoute(c, d, w, params)
  }

  function FinalArguments(c: Coercion, d: Declared, w: Wire, params: Params): Values {
    var arguments := BeforeQuery(c, d, w, params);
    if w.query.None? then arguments
    else arguments + Flat(c, w.query.value, d.query - arguments.Keys)
  }

  /** The query string a request is left with: each query argument it lacked. */
  function QueryAfter(c: Coercion, d: Declared, w: Wire, params: Params): Option<Query> {
    if w.query.None? then None
    else
      var sent := Restrict(BeforeQuery(c, d, w, params), d.query - w.query.value.Keys);
      Some(Listed(c, sent) + w.query.value)
  }

  /** Each of `names` among the arguments goes onto the view's captures. */
  method PutOnTheRoute(arguments: Arguments, view: View, names: set<string>)
    requires view.kwargs.Some? && names !! view.kwargs.value.Keys
    modifies view
    ensures view.kwargs == Some(Restrict(arguments.values, names) + old(view.kwargs.value))
  {
    var route := view.kwargs.value;
    var pending := names;
    while pending != {}
      invariant pending <= names && view.kwargs.Some?
      invariant view.kwargs.value == Restrict(arguments.values, names - pending) + route
      decreases pending
    {
      var name :| name in pending;
      if name in arguments.values {
        view.kwargs := Some(view.kwargs.value[name := arguments.values[name]]);
      }
      pending := pending - {name};
    }
    assert names - pending == names;
  }

  /** Each declared argument is read from the query string where there is no other, and put there where the
      query string lacks it. */
  method ThroughTheQuery(c: Coercion, names: set<string>, arguments: Arguments, request: Request)
    requires request.query.Some?
    modifies arguments, request
    ensures arguments.values
         == old(arguments.values) + Flat(c, old(request.query.value), names - old(arguments.values).Keys)
    ensures request.query
         == Some(Listed(c, Restrict(old(arguments.values), names - old(request.query.value).Keys))
                 + old(request.query.value))
  {
    var query, sent := request.query.value, Restrict(arguments.values, names);
    arguments.values := arguments.values + Flat(c, query, names - arguments.values.Keys);
    var lacking := sent - query.Keys;
    assert lacking == Restrict(old(arguments.values), names - query.Keys);
    if lacking.Keys != {} {
      request.query := Some(Listed(c, lacking) + query);
    } else {
      assert Listed(c, lacking) + query == query;
    }
  }

  /** The route's half of the routing, with `w` the channels the call found. */
  method ThroughTheRoute(c: Coercion, d: Declared, ghost w: Wire, params: Params, arguments: Arguments, view: View?)
    requires arguments.values == Sent(c, params) && w.live == OverHttp(view) && w.route == RouteOf(view)
    modifies arguments, view
    ensures arguments.values == AfterRoute(c, d, w, params) && RouteOf(view) == RouteAfter(c, d, w, params)
  {
    if OverHttp(view) {
      arguments.values := arguments.values - d.url;
    }
    arguments.values := arguments.values + Captured(c, d, RouteOf(view));
    if view != null && view.kwargs.Some? && !OverHttp(view) {
      PutOnTheRoute(arguments, view, d.url - view.kwargs.value.Keys - d.fields);
    }
  }

  /** The query string's half. */
  method ThroughTheQueryString(c: Coercion, d: Declared, ghost w: Wire, params: Params, arguments: Arguments,
                               live: bool, request: Request?)
    requires arguments.values == AfterRoute(c, d, w, params) && w.live == live && w.query == QueryOf(request)
    modifies arguments, request
    ensures arguments.values == FinalArguments(c, d, w, params) && QueryOf(request) == QueryAfter(c, d, w, params)
  {
    if live {
      arguments.values := arguments.values - d.query;
    }
    assert arguments.values == BeforeQuery(c, d, w, params);
    if request != null && request.query.Some? {
      if d.query != {} {
        ThroughTheQuery(c, d.query, arguments, request);
      } else {
        assert Flat(c, w.query.value, d.query - arguments.values.Keys) == map[];
        assert Restrict(arguments.values, d.query - w.query.value.Keys) == map[];
        assert Listed(c, map[]) + w.query.value == w.query.value;
      }
      assert request.query.value == QueryAfter(c, d, w, params).value;
    }
  }

  /** As it runs: the arguments filled step by step, and the view's captures and the request's query string
      written where they lack a value. Params that are no object are handed on as they are. */
  method EdgeArguments(c: Coercion, d: Declared, params: Params, view: View?,
                       request: Request?) returns (arguments: Arguments?)
    modifies view, request
    ensures (arguments == null <==> params.NoObject?) && (arguments != null ==> fresh(arguments))
    ensures params.NoObject? ==> RouteOf(view) == old(RouteOf(view)) && QueryOf(request) == old(QueryOf(request))
    ensures !params.NoObject? ==>
              arguments.values == FinalArguments(c, d, Wire(OverHttp(view), old(RouteOf(view)), old(QueryOf(request))),
                                                 params)
    ensures !params.NoObject? ==>
              && RouteOf(view) == RouteAfter(c, d, Wire(OverHttp(view), old(RouteOf(view)), old(QueryOf(request))),
                                             params)
              && QueryOf(request) == QueryAfter(c, d, Wire(OverHttp(view), old(RouteOf(view)), old(QueryOf(request))),
                                                params)
  {
    if params.NoObject? {
      return null;
    }
    ghost var w := Wire(OverHttp(view), RouteOf(view), QueryOf(request));
    arguments := new Arguments(Sent(c, params));
    ThroughTheRoute(c, d, w, params, arguments, view);
    ThroughTheQueryString(c, d, w, params, arguments, OverHttp(view), request);
  }

  // --- where each argument comes from

  /** The route's capture of a name, coerced. */
  function CaptureOf(c: Coercion, w: Wire, name: string): Option<Value> {
    if w.route.Some? && name in w.route.value then Some(c.coerce(name, w.route.value[name])) else None
  }

  /** The query string's values of a name, read flat and coerced. */
  function QueryValue(c: Coercion, w: Wire, name: string): Option<Value> {
    if w.query.Some? && name in w.query.value then Some(c.read(name, w.query.value[name])) else None
  }

  /** What the params hold under a name: a mapping's value, or what is read of a form's. */
  function ParamOf(c: Coercion, params: Params, name: string): Option<Value> {
    match params
    case Mapping(values) => Lookup(values, name)
    case Form(query) => if name in query then Some(c.read(name, query[name])) else None
    case NoObject => None
  }

  lemma SentIsTheParams(c: Coercion, params: Params, name: string)
    ensures Lookup(Sent(c, params), name) == ParamOf(c, params, name)
  {
  }

  /** What a call's params, route and query string make a name's argument. Over HTTP a name declared for a channel is
      that channel's alone. Otherwise a capture of a name declared for the URL or read comes first, then the value
      sent, then, for a name declared for the query string, what that holds. */
  function ArgumentSource(c: Coercion, d: Declared, w: Wire, params: Params, name: string): Option<Value> {
    var capture := if name in d.url || name in d.readNames then CaptureOf(c, w, name) else None;
    if w.live && name in d.query then QueryValue(c, w, name)
    else if w.live && name in d.url then CaptureOf(c, w, name)
    else
      var here := Or(capture, ParamOf(c, params, name));
      if name in d.query then Or(here, QueryValue(c, w, name)) else here
  }

  lemma ArgumentsComeFromTheirChannels(c: Coercion, d: Declared, w: Wire, params: Params, name: string)
    ensures Lookup(FinalArguments(c, d, w, params), name) == ArgumentSource(c, d, w, params, name)
  {
    SentIsTheParams(c, params, name);
    if w.query.Some? {
      FlatAt(c, w.query.value, d.query - BeforeQuery(c, d, w, params).Keys, name);
    }
  }

  lemma FlatAt(c: Coercion, query: Query, names: set<string>, name: string)
    ensures Lookup(Flat(c, query, names), name)
         == if name in query && name in names then Some(c.read(name, query[name])) else None
  {
  }

  // --- what the routing promises

  /** Off HTTP the channels and the arguments end in step: each URL argument that is no input field is on the
      view's captures exactly where it is an argument, each query argument on the query string, and nothing
      either already held is overwritten. */
  lemma OfflineChannelsAgree(c: Coercion, d: Declared, w: Wire, params: Params)
    requires !w.live && w.route.Some? && w.query.Some? && d.url !! d.query
    ensures var arguments, route, query :=
              FinalArguments(c, d, w, params), RouteAfter(c, d, w, params).value, QueryAfter(c, d, w, params).value;
      && (forall name :: name in d.url && name !in d.fields ==> (name in arguments <==> name in route))
      && (forall name :: name in d.query ==> (name in arguments <==> name in query))
      && (forall name :: name in w.route.value ==> name in route && route[name] == w.route.value[name])
      && (forall name :: name in w.query.value ==> name in query && query[name] == w.query.value[name])
      && (forall name :: name in route && name !in w.route.value ==>
            name in d.url && name !in d.fields && name in Sent(c, params) && route[name] == Sent(c, params)[name])
      && (forall name :: name in query && name !in w.query.value ==>
            name in d.query && name in arguments && query[name] == c.listed(arguments[name]))
      && (forall name :: name in d.url && name in w.route.value ==>
          arguments[name] == c.coerce(name, w.route.value[name]))
      && (forall name :: name in d.query && name in w.query.value && name !in BeforeQuery(c, d, w, params) ==>
            arguments[name] == c.read(name, w.query.value[name]))
  {
  }

  /** A live request's route and query string are its client's URL: neither is ever written. */
  lemma LiveChannelsStay(c: Coercion, d: Declared, w: Wire, params: Params)
    requires w.live
    ensures RouteAfter(c, d, w, params) == w.route && QueryAfter(c, d, w, params) == w.query
  {
    if w.query.Some? {
      assert Restrict(BeforeQuery(c, d, w, params), d.query - w.query.value.Keys) == map[];
      assert QueryAfter(c, d, w, params).value == w.query.value;
    }
  }

  /** Each declared argument is read from its channel alone; one declared for both, from the query string. */
  lemma LiveArgumentAt(c: Coercion, d: Declared, w: Wire, params: Params, name: string)
    requires w.live && name in d.url + d.query
    ensures var arguments := FinalArguments(c, d, w, params);
            if name in d.query then
              && (name in arguments <==> w.query.Some? && name in w.query.value)
              && (name in arguments ==> arguments[name] == c.read(name, w.query.value[name]))
            else
              && (name in arguments <==> w.route.Some? && name in w.route.value)
              && (name in arguments ==> arguments[name] == c.coerce(name, w.route.value[name]))
  {
    assert name in d.query ==> name !in BeforeQuery(c, d, w, params);
  }

  /** So neither the channels nor a declared argument is anything the body said. */
  lemma LiveChannelsAreTheUrls(c: Coercion, d: Declared, w: Wire, params: Params, other: Params)
    requires w.live
    ensures RouteAfter(c, d, w, params) == w.route && QueryAfter(c, d, w, params) == w.query
    ensures RouteAfter(c, d, w, other) == w.route && QueryAfter(c, d, w, other) == w.query
    ensures forall name :: name in d.url + d.query ==>
      (name in FinalArguments(c, d, w, params) <==> name in FinalArguments(c, d, w, other))
      && (name in FinalArguments(c, d, w, params) ==>
          FinalArguments(c, d, w, params)[name] == FinalArguments(c, d, w, other)[name])
  {
    LiveChannelsStay(c, d, w, params);
    LiveChannelsStay(c, d, w, other);
    forall name | name in d.url + d.query
      ensures name in FinalArguments(c, d, w, params) <==> name in FinalArguments(c, d, w, other)
      ensures name in FinalArguments(c, d, w, params) ==>
        FinalArguments(c, d, w, params)[name] == FinalArguments(c, d, w, other)[name]
    {
      LiveArgumentAt(c, d, w, params, name);
      LiveArgumentAt(c, d, w, other, name);
    }
  }
}
