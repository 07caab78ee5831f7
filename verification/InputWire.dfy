/**
  A single call of a service with an input serializer and no target lookup, from what
  the client sent to what the service is handed: the authors and `input_data` answer
  from the route and the query string as the edge left them.
*/
module InputWire {
  import opened Prelude
  import opened AuthorValues
  import opened Channels
  import opened SelectorCall
  import opened InputCall
  import BundledService
  import ServerValues

  /** What is compiled of it, its declared reads by channel, the serializer's writable fields and those of them that
      are no argument for being named like a seed, its two providers, and a body's content as it is parsed. A row the
      caller of the edge handed in is among what `inputData` reads. */
  datatype Spec = Spec(compiled: InputService, url: set<string>, query: set<string>, written: set<string>,
                       excluded: set<string>, provider: Option<Provider>, inputData: Option<Provider>,
                       content: Params -> map<string, Tree>)

  function InputChannels(s: Spec): Declared { Declared(s.url, s.query, {}, s.written) }

  function InputReceived(e: Edge, s: Spec, w: Wire, params: Params): Values {
    FinalArguments(e.c, InputChannels(s), w, params) - DroppedNames(e) - s.excluded
  }

  function InputAuthor(e: Edge, s: Spec, route: Option<Values>, query: Option<Query>): Author {
    Author(e.hooks, if s.provider.Some? then Some(s.provider.value(route, query)) else None, s.compiled.filled)
  }

  /** What the authors and `input_data` answer a call, `hooked` being the view's own `input_data`. */
  datatype Answers = Answers(author: Author, server: Values)

  function AnswersTo(e: Edge, s: Spec, hooked: Values, w: Wire, params: Params): Answers {
    var d := InputChannels(s);
    var route, query := RouteAfter(e.c, d, w, params), QueryAfter(e.c, d, w, params);
    Answers(InputAuthor(e, s, route, query), BundledService.ServerInput(s.inputData, hooked, route, query))
  }

  /** Off HTTP a `UrlKwarg` named like a field is the field's: a value sent for it is never put on the route, so no
      provider reads it there, and any other is. */
  lemma AFieldsNameIsNotRouted(e: Edge, s: Spec, w: Wire, params: Params, name: string)
    requires !w.live && w.route.Some? && name in s.url && name !in w.route.value
    ensures name in RouteAfter(e.c, InputChannels(s), w, params).value <==>
      name !in s.written && ParamOf(e.c, params, name).Some?
  {
    SentIsTheParams(e.c, params, name);
  }

  /** Who answers: the view's hooks and the provider, and `input_data` over the view's own, a declined key apart. */
  lemma AnsweredByTheAuthors(e: Edge, s: Spec, hooked: Values, w: Wire, params: Params, name: string)
    ensures var d, answers := InputChannels(s), AnswersTo(e, s, hooked, w, params);
            var route, query := RouteAfter(e.c, d, w, params), QueryAfter(e.c, d, w, params);
            var body := if s.inputData.Some? then s.inputData.value(route, query) else map[];
            && answers.author.hooks == e.hooks && answers.author.filled == s.compiled.filled
            && answers.author.provided
               == (match s.provider case None => None case Some(provider) => Some(provider(route, query)))
            && Lookup(answers.server, name) == Or(GivenOf(body, name), Lookup(hooked, name))
  {
  }

  ghost function PrepareFromWire(e: Edge, s: Spec, hooked: Values, w: Wire, params: Params): Option<BodyCall>
    requires Injective(s.compiled.wire)
  {
    var answers := AnswersTo(e, s, hooked, w, params);
    PrepareInput(e, s.compiled, InputReceived(e, s, w, params), answers.author, answers.server)
  }

  function Bound(s: Spec, body: Params): (bound: ServerValues.Body) {
    ServerValues.Body(body.Form?, s.content(body))
  }

  /** As it runs, to the body; params that are no object are left for their refusal. `same` names the arguments
      that end as the very objects sent. */
  method PrepareInputCall(e: Edge, s: Spec, hooked: Values, params: Params, same: set<string>, view: View?,
                          request: Request?)
    returns (prepared: Option<BodyCall>, body: Params)
    requires Injective(s.compiled.wire)
    modifies view, request
    ensures !params.NoObject? ==>
              var w := Wire(OverHttp(view), old(RouteOf(view)), old(QueryOf(request)));
              && prepared == PrepareFromWire(e, s, hooked, w, params)
              && (prepared.Some? ==>
                    body == ValidatorBody(e.c, params, prepared.value.arguments, s.written, same))
    ensures params.NoObject? ==> prepared == None && body == params
  {
    prepared, body := None, params;
    var arguments := EdgeArguments(e.c, InputChannels(s), params, view, request);
    if arguments != null {
      arguments.values := arguments.values - DroppedNames(e) - s.excluded;
      var route, query := RouteOf(view), QueryOf(request);
      prepared := PutServerValues(e, s.compiled, arguments, InputAuthor(e, s, route, query),
                                  BundledService.ServerInput(s.inputData, hooked, route, query));
      if prepared.Some? {
        body := ValidatorBody(e.c, params, arguments.values, s.written, same);
      }
    }
  }

  /** What the serializer is bound to. */
  ghost function BodyBound(e: Edge, s: Spec, hooked: Values, w: Wire, params: Params,
                           same: set<string>): (body: ServerValues.Body)
    requires Injective(s.compiled.wire) && !params.NoObject? && PrepareFromWire(e, s, hooked, w, params).Some?
    ensures var arguments := PrepareFromWire(e, s, hooked, w, params).value.arguments;
            body == ServerValues.Body(params.Form?, s.content(ValidatorBody(e.c, params, arguments, s.written, same)))
  {
    Bound(s, ValidatorBody(e.c, params, PrepareFromWire(e, s, hooked, w, params).value.arguments, s.written, same))
  }

  /** What the service is handed of a call, where it is not refused. */
  ghost function HandedFromWire(e: Edge, s: Spec, hooked: Values, w: Wire, params: Params, same: set<string>,
                                seeds: map<string, Tree>): Option<map<string, Tree>>
    requires Injective(s.compiled.wire) && !params.NoObject?
  {
    if PrepareFromWire(e, s, hooked, w, params).None? then None
    else
      var answers := AnswersTo(e, s, hooked, w, params);
      HandedTo(e, s.compiled, InputReceived(e, s, w, params), answers.author, answers.server,
               BodyBound(e, s, hooked, w, params, same), seeds)
  }

  /** The serializer accepts the body, where the call comes to it. */
  ghost predicate Accepted(e: Edge, s: Spec, hooked: Values, w: Wire, params: Params, same: set<string>)
    requires Injective(s.compiled.wire) && !params.NoObject?
  {
    PrepareFromWire(e, s, hooked, w, params).Some? ==>
      s.compiled.serializer.valid(BodyBound(e, s, hooked, w, params, same)).Some?
  }

  /** What two calls' params are alike in: nothing over HTTP, where the channels are the URL's; off it, what they say
      of the names a channel is declared for. */
  ghost predicate AlikeOnChannels(e: Edge, s: Spec, w: Wire, params: Params, other: Params, off: set<string>) {
    w.live || (AgreeOff(Sent(e.c, params), Sent(e.c, other), off) && s.url + s.query !! off)
  }

  /** So both calls are answered alike, and their arguments hold the declared names alike. */
  lemma AnsweredAlike(e: Edge, s: Spec, hooked: Values, w: Wire, params: Params, other: Params, off: set<string>)
    requires AlikeOnChannels(e, s, w, params, other, off)
    ensures AnswersTo(e, s, hooked, w, params) == AnswersTo(e, s, hooked, w, other)
    ensures AgreeOn(InputReceived(e, s, w, params), InputReceived(e, s, w, other), s.url + s.query)
  {
    if w.live {
      LiveChannelsAreTheUrls(e.c, InputChannels(s), w, params, other);
    } else {
      ChannelsCarryNothingElse(e.c, InputChannels(s), w, params, other, off);
    }
  }

  lemma OwnedOfAnswers(e: Edge, s: InputService, received: Values, other: Values, answers: Answers,
                       body: ServerValues.Body, otherBody: ServerValues.Body, seeds: map<string, Tree>,
                       alike: set<string>, name: string)
    requires RegistersInput(s) && IsOwned(s, name) && answers.author.filled == s.filled
    requires body.form == otherBody.form && s.serializer.valid(body).Some? && s.serializer.valid(otherBody).Some?
    requires AgreeOn(received, other, alike)
    ensures var one := HandedTo(e, s, received, answers.author, answers.server, body, seeds);
            var two := HandedTo(e, s, other, answers.author, answers.server, otherBody, seeds);
            var left := LeftToTheClient(e, s, answers.author, answers.server, seeds, name);
            AlikeUnlessTheClients(s, one, two, left, name in alike, Lookup(received, name), name)
  {
    OwnedNamesReachTheService(e, s, received, other, answers.author, answers.server, body, otherBody, seeds, name);
    if name in alike {
      OwnedAlikeWhereSentAlike(e, s, received, other, answers.author, answers.server, body, otherBody, seeds, name);
    }
  }

  /** What the caller's params, route and query string make a name's argument: nothing of a seed's name, nor of a
      field's that is named like one. */
  function CallersField(e: Edge, s: Spec, w: Wire, params: Params, name: string): Option<Value> {
    if name in e.poolSeeds || name in e.registered || name == "request" || name == "serializer" then None
    else if name in s.excluded then None
    else ArgumentSource(e.c, InputChannels(s), w, params, name)
  }

  lemma InputReceivedIsTheCallers(e: Edge, s: Spec, w: Wire, params: Params, name: string)
    ensures Lookup(InputReceived(e, s, w, params), name) == CallersField(e, s, w, params, name)
  {
    ArgumentsComeFromTheirChannels(e.c, InputChannels(s), w, params, name);
  }

  lemma PreparedAlike(e: Edge, s: Spec, hooked: Values, w: Wire, params: Params, other: Params)
    requires Injective(s.compiled.wire) && AnswersTo(e, s, hooked, w, params) == AnswersTo(e, s, hooked, w, other)
    ensures PrepareFromWire(e, s, hooked, w, params).Some? <==> PrepareFromWire(e, s, hooked, w, other).Some?
  {
    var answers := AnswersTo(e, s, hooked, w, params);
    PutIsTheServers(e, s.compiled, InputReceived(e, s, w, params), InputReceived(e, s, w, other), answers.author,
                    answers.server);
  }

  lemma HandedAsBound(e: Edge, s: Spec, hooked: Values, w: Wire, params: Params, same: set<string>,
                      seeds: map<string, Tree>)
    requires Injective(s.compiled.wire) && !params.NoObject?
    ensures var answers := AnswersTo(e, s, hooked, w, params);
            HandedFromWire(e, s, hooked, w, params, same, seeds)
            == if PrepareFromWire(e, s, hooked, w, params).None? then None
               else HandedTo(e, s.compiled, InputReceived(e, s, w, params), answers.author, answers.server,
                             BodyBound(e, s, hooked, w, params, same), seeds)
  {
  }

  /** What two calls hand the service under a name: alike, or as the first sent it where the name is the client's. */
  ghost predicate AlikeUnlessTheClients(s: InputService, one: Option<map<string, Tree>>, two: Option<map<string, Tree>>,
                                        left: bool, alike: bool, sent: Option<Value>, name: string) {
    && (one.Some? <==> two.Some?)
    && (!left || alike ==> Agree(one, two, name))
    && (left && one.Some? && sent.Some? ==> TreeAt(one.value, name) == Some(s.asTree(sent.value)))
  }

  /** Ownership, from the wire. Whatever two accepted calls of one kind send, beside the same channels, the service
      is handed the same value, or none, under every name the server owns; but a read owned only through a field's
      `source`, of no channel and left to the client, is handed as the client sent it. */
  lemma OwnedNamesFromTheWire(e: Edge, s: Spec, hooked: Values, w: Wire, params: Params, other: Params,
                              same: set<string>, otherSame: set<string>, off: set<string>,
                              seeds: map<string, Tree>, name: string)
    requires RegistersInput(s.compiled) && IsOwned(s.compiled, name)
    requires !params.NoObject? && !other.NoObject? && (params.Form? <==> other.Form?)
    requires AlikeOnChannels(e, s, w, params, other, off)
    requires Accepted(e, s, hooked, w, params, same) && Accepted(e, s, hooked, w, other, otherSame)
    ensures var one := HandedFromWire(e, s, hooked, w, params, same, seeds);
            var two := HandedFromWire(e, s, hooked, w, other, otherSame, seeds);
            var answers, sent := AnswersTo(e, s, hooked, w, params), CallersField(e, s, w, params, name);
            var left := LeftToTheClient(e, s.compiled, answers.author, answers.server, seeds, name);
            AlikeUnlessTheClients(s.compiled, one, two, left, name in s.url + s.query, sent, name)
  {
    AnsweredAlike(e, s, hooked, w, params, other, off);
    InputReceivedIsTheCallers(e, s, w, params, name);
    var answers := AnswersTo(e, s, hooked, w, params);
    var received, others := InputReceived(e, s, w, params), InputReceived(e, s, w, other);
    PreparedAlike(e, s, hooked, w, params, other);
    HandedAsBound(e, s, hooked, w, params, same, seeds);
    HandedAsBound(e, s, hooked, w, other, otherSame, seeds);
    if PrepareFromWire(e, s, hooked, w, params).Some? {
      OwnedOfAnswers(e, s.compiled, received, others, answers, BodyBound(e, s, hooked, w, params, same),
                     BodyBound(e, s, hooked, w, other, otherSame), seeds, s.url + s.query, name);
    }
  }

  /** Every name the service is handed of a whole call has one source, the caller's values as its params, route and
      query string make them. */
  lemma InputServiceFromTheWire(e: Edge, s: Spec, hooked: Values, w: Wire, params: Params, same: set<string>,
                                seeds: map<string, Tree>, name: string)
    requires Injective(s.compiled.wire) && !params.NoObject?
    ensures var handed := HandedFromWire(e, s, hooked, w, params, same, seeds);
            var answers := AnswersTo(e, s, hooked, w, params);
            handed.Some? ==>
              && PrepareFromWire(e, s, hooked, w, params).Some?
              && Routing(InputSeat(e, s.compiled), answers.author).Routed?
              && var call := PrepareFromWire(e, s, hooked, w, params).value;
                 var verdict := ServerValues.Validate(s.compiled.serializer, ValidatorCall(e, s.compiled, call),
                                                      BodyBound(e, s, hooked, w, params, same));
                 && verdict.Validated?
                 && TreeAt(handed.value, name)
                    == InputSource(e, s.compiled, CallersField(e, s, w, params, name), answers.author, answers.server,
                                   verdict.values, seeds, name)
  {
    var answers := AnswersTo(e, s, hooked, w, params);
    HandedAsBound(e, s, hooked, w, params, same, seeds);
    InputReceivedIsTheCallers(e, s, w, params, name);
    if PrepareFromWire(e, s, hooked, w, params).Some? {
      InputServiceHasOneSource(e, s.compiled, InputReceived(e, s, w, params), answers.author, answers.server,
                               BodyBound(e, s, hooked, w, params, same), seeds, name);
    }
  }
}
