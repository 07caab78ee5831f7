# A verified model of the DRF edge's dispatch

This project models how `rest_framework_services`, a Django REST Framework edge over the kernel
`django_service_specs`, prepares a call, hands values to callables, describes serializers, keeps
per-call and per-process caches, and reshapes refusals; and it proves what that machinery promises.

`dafny verify dfyconfig.toml` checks all of it.

## How it is laid out

- `SelectorCall`, `BundledService`, `InputCall`, `InputWire`, `Channels`, `AuthorValues`: one call's values. The client's
  arguments are routed both ways with the URL and the query string, the filter's values replace the
  caller's, a view's hooks and the spec's provider are put over arguments or handed on beside them,
  and the kernel's pool and the compiled wrappers decide what each callable receives. The theorems
  are two-run ones (whose value can reach which callable) beside a reference ranking of sources.
- `ServerValues`: the Validator of a single call, which validates the server's values on their own,
  hands them to parameters, lays them back over the data and keeps owned names from the client.
- `Requiredness`: which reads compile required, and which the edge relaxes.
- `Declarations`, `SchemaWalk`, `FieldWalks`, `WalkAgreement`: the three bounded walks over a lazily
  unfolded, possibly infinite serializer declaration.
- `WeakCaches`, `IdentityKeys`, `Description`: caches keyed by `id()` in a memory that reuses ids, and
  the one serializer a call describes and validates with.
- `Refusals`, `Rewording`, `RowRefusals`, `BulkValidation`, `WireNames`, `Translation`: refusals
  re-keyed, reworded, renamed and translated.
- `Markers`: the schema markers of an annotation.

What the kernel does is assumed, not proved: a callable is handed its own parameters (all of them
with a `**kwargs`) of a pool made of the seeds over the arguments the compiled parameters name, over
the extras; a service's `kwargs` seat lies over its Validator's values and its reads, and a read's argument
over a Validator's value of its name. Serializers' own validation,
providers, hooks and what a filter's widget reads are opaque deterministic functions.

## Where the code does less than its text suggests

- A key an author declines with `UNSET` is handed on, as `UNSET`, beside a filter or on a server
  channel: `AuthorValues.DeclinedKeyChangesNothing` says exactly when a provider's declining changes nothing,
  `AuthorValues.HooksDeclinedKeyChangesNothing` when a hook's does, and
  `AuthorValues.ADeclinedFilterNameIsHandedOn` is a call where it does.
- A hook naming a field by both its names keeps its `source` value beside the arguments where the
  provider's `source` value became the field's: `AuthorValues.ProviderOutranksTheHookPerKey`, and
  `AuthorValues.AHooksSourceValueStays` for one call.
- `non_field_errors` that is a mapping or a lone message loses its messages when an unknown key is
  reworded beside it: `Rewording.NonFieldKept`, `Rewording.AMappedMessageIsLost`.
- A field refused under both its `source` and its wire name loses one of the two errors:
  `WireNames.RenamingConservesTheTree`, `WireNames.OneOfTwoRefusalsIsLost`.
- A declared read named like the `source` of a field the server owns is the client's: the names a spec is
  checked for at registration are compared, never their sources. `InputCall.ClientDecidesExactlyWhatIsLeft`
  says exactly when, and `InputCall.AReadNamedLikeASourceIsTheClients` is a spec where it happens.
- A `**kwargs` is handed a name a filter reads and a callable hides under the server channel's name, not its
  own, where the callable has no such parameter: `SelectorCall.EveryParameterHasOneSource`, and
  `SelectorCall.AnOpenSelectorIsHandedTheChannel` is a spec where it happens.
- A required `TypedDict` key is said to stay required at the edge; it is relaxed where another
  callable takes the name as a keyword with no default: `Requiredness.AKeyBesideAKeywordIsRelaxed`.

## Model

| member | source | states |
|---|---|---|
| SelectorCall.SelectorIsolation | rest_framework_services/dispatch/utils.py:283-349 | two calls alike but for the client's values of names a callable marks `NotClientInput` (a filter's names among them) and for `filter_data` hand the selector and every precondition the same keyword arguments, an open `**kwargs` included |
| SelectorCall.BundledLiveView | rest_framework_services/dispatch/utils.py:1748-1801 | under `BUNDLE` on a live view no two bodies and no two `filter_data` hand any callable different keyword arguments: the route, the query string, the hooks, the provider and the seeds decide them |
| SelectorCall.EveryParameterHasOneSource | rest_framework_services/service_specs/as_kernel_spec.py:731-786 | each name a callable takes, a parameter or a key of its `**kwargs`, is handed exactly what its ranked sources give (seed; author; route; caller as sent, never the filter's reading) and is absent where none gives one; a name a filter reads and a callable hides is handed under its server channel to a `**kwargs` beside no such parameter of its own |
| SelectorCall.EveryParameterFromTheWire | rest_framework_services/dispatch/utils.py:283-349 | the same of a whole call, the caller's value being what its params, route and query string make it (nothing of a seed's name; under `BUNDLE` the capture alone for a parameter of the selector's own), and the authors the view's hooks and the provider's answer |
| SelectorCall.AnOwnParameterIsTheCallers | rest_framework_services/dispatch/utils.py:297-310 | a parameter of the selector's own, of no channel and no filter's, which no seed, author or owned key takes, is the route's coerced capture, else the value sent, and nothing in its place only under `BUNDLE` |
| SelectorCall.NoOtherNameIsTheCallers | rest_framework_services/dispatch/utils.py:283-349 | any name that is no such parameter, read or filter's is handed a seed's, an author's or a captured value, whatever the params are |
| SelectorCall.ReadsAreTheCallersToFill | rest_framework_services/service_specs/as_kernel_spec.py:1530-1603 | a compiled read is a parameter or key of the selector's that no callable hides and no seed names, a declared read that is no shape, or a filter's name |
| SelectorCall.FilterReads | rest_framework_services/dispatch/utils.py:310-349 | what the kernel's filter reads under a name: the provider's value, else what the FilterSet reads of `filter_data` alone where given and of the caller's value otherwise; never a hook's, and of a hidden name never an author's |
| SelectorCall.LeftOnItsChannel | rest_framework_services/service_specs/as_kernel_spec.py:699-728 | such a `**kwargs` is handed nothing under the name itself |
| SelectorCall.AnOpenSelectorIsHandedTheChannel | rest_framework_services/service_specs/as_kernel_spec.py:682-728 | a selector of `**kwargs` alone beside a precondition hiding the filter's `q` registers, and whatever the client sends a hook's `q` is the precondition's `q` and reaches the selector under the channel's name alone |
| SelectorCall.ExtrasNameNoArgument | rest_framework_services/dispatch/utils.py:1436-1520 | the call's extras name no argument of the compiled selector and no seed |
| SelectorCall.CapturedAlone | rest_framework_services/dispatch/utils.py:297-310 | of the selector's own parameters a bundled live call receives the route's captures and nothing a client sent |
| SelectorCall.ChannelsCarryNothingElse | rest_framework_services/dispatch/utils.py:1112-1206 | names no channel is declared for never reach the view's captures or the query string, and touch no other argument |
| SelectorCall.SameForEveryCallable | rest_framework_services/dispatch/utils.py:310-349 | what a callable is handed depends on the arguments only through the reads that are no filter's and through what is kept beside the filter |
| SelectorCall.FilterNamesNeverPass | rest_framework_services/service_specs/as_kernel_spec.py:758-764 | two pools that agree off the filter's names hand a compiled callable the same |
| SelectorCall.HandedAt | rest_framework_services/service_specs/as_kernel_spec.py:682-728 | a parameter is taken off its server channel where it is renamed, off the values beside the filter where the filter reads its name, and off the pool otherwise |
| SelectorCall.OwnNameAt | rest_framework_services/service_specs/as_kernel_spec.py:701-702 | stripping the channel prefix gives a name its channel's value, else its own |
| SelectorCall.NoTwoStripToOne | rest_framework_services/service_specs/as_kernel_spec.py:701-702 | no two of the names a callable is handed strip to one, so nothing is lost by stripping them |
| SelectorCall.ExtraOnChannel | rest_framework_services/dispatch/utils.py:1436-1449 | a server channel holds an author's answer for a name a filter reads and a callable hides, else the route's, and nothing for any other name |
| SelectorCall.ExtraAt | rest_framework_services/dispatch/utils.py:1499-1520 | an extra under its own name is an author's value no argument took, else the route's capture of a hidden name |
| SelectorCall.RestStaysPut | rest_framework_services/dispatch/utils.py:1436-1449 | nothing an author gave that no argument took is moved to a channel afterwards |
| SelectorCall.BesideAt | rest_framework_services/dispatch/utils.py:1457-1482 | beside the filter stands the author's answer, then the route's capture as captured, then the caller's argument as sent (under `BUNDLE` a declared read's alone), and nothing for a hidden name |
| SelectorCall.ArgumentAt | rest_framework_services/dispatch/utils.py:1378-1433 | an argument of a call with no fields ends as the provider's given value, else the hooks', else the caller's unless the provider owns it |
| SelectorCall.OwnedReadsAreTheFilters | rest_framework_services/service_specs/as_kernel_spec.py:1338-1372 | no compiled read but a filter's is a name the server owns |
| SelectorCall.RouteFilterData | rest_framework_services/dispatch/utils.py:1640-1665 | with `filter_data` a filter name is read from it alone; every other argument stays |
| SelectorCall.AsItsFilterSetReads | rest_framework_services/dispatch/utils.py:1668-1701 | each filter's argument becomes what its FilterSet reads, one that reads as no value is dropped, and no other argument moves |
| SelectorCall.Receive | rest_framework_services/dispatch/utils.py:293-310 | the arguments and both channels end as the two-way routing says, less the seeds' names, and under `BUNDLE` less the caller's own values for the selector's parameters |
| SelectorCall.RouteValues | rest_framework_services/dispatch/utils.py:310-349 | arguments, extras and the values beside the filter end as the prepared call, or the call is refused where the provider names a seed |
| SelectorCall.PrepareSelectorCall | rest_framework_services/dispatch/utils.py:283-349 | the whole preparation of a selector call, in place, is the prepared call the isolation theorems are about |
| BundledService.BundledLiveService | rest_framework_services/dispatch/utils.py:566-620 | a service with no input serializer and no target lookup is handed the same keyword arguments whatever a live client sends as `params` |
| BundledService.EveryServiceParameterHasOneSource | rest_framework_services/dispatch/utils.py:1605-1629 | each name a callable takes, a parameter or a key of its `**kwargs`, is handed exactly a seed's value, else for a read the server's input, the authors' or the caller's, else an author's |
| BundledService.EveryServiceParameterFromTheWire | rest_framework_services/dispatch/utils.py:512-640 | the same of a whole call: the caller's value is what its params, route and query string make it, and the authors are the hooks and the provider's answer |
| BundledService.ServerInputAt | rest_framework_services/dispatch/utils.py:844-878 | each of the server's keys is the provider's answer where it gives one, else the view's own |
| BundledService.SeatServiceValues | rest_framework_services/dispatch/utils.py:607-640 | the authors' values, then `input_data`, over the arguments, and the rest seated over or beneath the Validator's |
| BundledService.PrepareServiceCall | rest_framework_services/dispatch/utils.py:512-640 | the whole preparation in place is the prepared call the theorem is about |
| InputCall.OwnedNamesReachTheService | rest_framework_services/dispatch/utils.py:512-688 | for the same authors' and `input_data` answers, two calls whose bodies of one kind are accepted hand the service the same value, or none, under every name the server owns, whatever the client's arguments and bodies are, but for a read owned only through a field's `source` that no author, `input_data` or seed takes, which is handed as the client sent it |
| InputCall.ServersValueReachesTheService | rest_framework_services/dispatch/utils.py:643-676 | what `input_data`, else the provider, else a used hook answers for a field is judged by that field; a refusal refuses the call, and the value accepted is the service's under each name the field alone is handed under, where no seed, read or author's value of that name takes its place |
| InputCall.PutExactly | rest_framework_services/dispatch/utils.py:655-676 | what the Validator is given for a name is `input_data`'s value, else the authors' answer, and nothing else, with the key the author gave it under |
| InputCall.InputServiceHasOneSource | rest_framework_services/dispatch/utils.py:512-688 | each name the service is handed has one source: a seed; an unplaced author's value; for a read the server's answer, else the caller's unless owned; the Validator's value |
| InputWire.OwnedNamesFromTheWire | rest_framework_services/dispatch/utils.py:512-688 | with the authors and `input_data` answering from the channels as the edge left them: any two params over HTTP, and off it any two alike on the names declared for a channel, hand the service the same under every owned name, but for such a read of no channel |
| InputWire.InputServiceFromTheWire | rest_framework_services/dispatch/utils.py:512-688 | every name the service is handed of a whole call has that one source, the caller's values as its params, route and query string make them |
| InputWire.AnsweredByTheAuthors | rest_framework_services/dispatch/utils.py:844-878 | the hooks, the provider and `input_data` answer as they do from the route and the query string the edge left |
| InputWire.AFieldsNameIsNotRouted | rest_framework_services/dispatch/utils.py:1177-1186 | off HTTP a `UrlKwarg` the route lacks is put there iff it was sent and is no field's name |
| InputWire.AnsweredAlike | rest_framework_services/dispatch/utils.py:512-688 | two such calls are answered alike and their arguments hold the declared names alike |
| InputWire.PrepareInputCall | rest_framework_services/dispatch/utils.py:560-676 | the whole preparation in place, to the body the Validator is bound to, is the call the theorem is about |
| InputCall.OwnedAlikeWhereSentAlike | rest_framework_services/dispatch/utils.py:512-688 | an owned name two clients' arguments hold alike is handed alike |
| InputCall.ClientDecidesExactlyWhatIsLeft | rest_framework_services/dispatch/utils.py:512-688 | the client's arguments never decide an owned name iff it is no such read |
| InputCall.AReadNamedLikeASourceIsTheClients | rest_framework_services/service_specs/as_kernel_spec.py:1403-1450 | a declared read `org` beside a marked field `tenant` with `source="org"` registers, and the client's `org` reaches the service |
| InputCall.PutIsTheServers | rest_framework_services/dispatch/utils.py:655-676 | what the server puts into the body, and the authors' values beside the arguments, do not depend on the client's arguments |
| InputCall.AuthoredIsRouted | rest_framework_services/dispatch/utils.py:1378-1433 | an argument an author gave is the author's value alone |
| InputCall.OwnedReadsAreTheAuthors | rest_framework_services/dispatch/utils.py:1290-1302 | the client's value for a key the typed provider owns is no read's argument |
| InputCall.BodyHoldsWhatIsPut | rest_framework_services/dispatch/utils.py:761-806 | each field of a mapping body holds what the edge left as its argument, one whose argument it took keeps the client's value; a form's name keeps its own values unless another object was put there, an equal one included; nothing but a field is written, and a body with nothing put is the params |
| InputCall.OneSourcePerHiddenKey | rest_framework_services/dispatch/utils.py:1523-1602 | a hidden lookup key the route captures has one source, its seed: the author's value, which leaves the extras, else the route's; never one of a parameter or of a seed the call had |
| InputCall.HiddenLookupSeeds | rest_framework_services/dispatch/utils.py:1567-1575 | the loop seeds exactly the hidden names and pops each from the extras |
| InputCall.PutServerValues | rest_framework_services/dispatch/utils.py:601-676 | the authors' values, then `input_data`, over the arguments in place, are the prepared call the theorem is about |
| AuthorValues.EveryValueHasOnePlace | rest_framework_services/dispatch/utils.py:1378-1433 | every given value goes to exactly one argument or to the rest, no argument is claimed by two keys, a key naming an argument outright wins over a `source`, and the rest names no argument and holds no `UNSET` |
| AuthorValues.ArgumentsAnswered | rest_framework_services/dispatch/utils.py:1411-1433 | an argument is given the value of its own name, else of the `source` it is the wire name of, and nothing where an author gives neither |
| AuthorValues.DeclinedKeysSplitNothing | rest_framework_services/dispatch/utils.py:1411-1433 | keys answered `UNSET` split as if they were not there |
| AuthorValues.ProviderThenHookThenCaller | rest_framework_services/dispatch/utils.py:1225-1338 | each argument ends as the provider's value, else the hooks', else the caller's less what the provider owns |
| AuthorValues.RestNamesNoArgument | rest_framework_services/dispatch/utils.py:1316-1338 | what goes on beside the arguments names no argument and no seed, is given, and is the provider's value over the hooks' |
| AuthorValues.ChannelsNameNoArgument | rest_framework_services/dispatch/utils.py:1304-1329 | nor does a value on a server channel |
| AuthorValues.ProviderOutranksTheHookPerKey | rest_framework_services/dispatch/utils.py:1316-1338 | beside the arguments the provider's value for a key both give stands exactly where the provider's own went into no argument |
| AuthorValues.AHooksSourceValueStays | rest_framework_services/dispatch/utils.py:1411-1433 | a hook naming a field by both its names, beside a provider naming its `source`: the provider's value is the field's and the hook's is still handed on under the `source` |
| AuthorValues.DeclinedKeyChangesNothing | rest_framework_services/dispatch/utils.py:1304-1329 | a key the provider answers `UNSET` leaves the routing unchanged if and only if no filter reads it, or the hooks decline it too |
| AuthorValues.DeclinedKeyChangesNoArgument | rest_framework_services/dispatch/utils.py:1378-1433 | it never changes an argument |
| AuthorValues.HooksDeclinedKeyChangesNothing | rest_framework_services/dispatch/utils.py:1271-1329 | a key a hook answers `UNSET` leaves the routing unchanged if and only if the call is refused for a seed anyway, a seed or the provider's own key drops the hook's value, no filter reads the name, or the provider answers it |
| AuthorValues.HooksDeclinedKeyChangesNoArgument | rest_framework_services/dispatch/utils.py:1378-1433 | nor does that change an argument |
| AuthorValues.HooksUsedExactly | rest_framework_services/dispatch/utils.py:1262-1283 | a hook's value is used iff its key is no seed's and neither an owned key nor the other name of one |
| AuthorValues.AnOwnedNamesHookIsDropped | rest_framework_services/dispatch/utils.py:1262-1283 | so a hook naming a value the typed provider owns changes nothing of the call, even where the provider declines it |
| AuthorValues.ADeclinedFilterNameIsHandedOn | rest_framework_services/dispatch/utils.py:1316-1329 | a filter name answered `UNSET` is handed on as `UNSET`, where one not answered is not handed on at all |
| AuthorValues.NameArguments | rest_framework_services/dispatch/utils.py:1411-1420 | the two naming loops record every claim under its one argument, whatever order the keys come in |
| AuthorValues.SplitAuthorValues | rest_framework_services/dispatch/utils.py:1378-1433 | the arguments are updated by exactly the claimed values, and what is returned is the one split there is |
| AuthorValues.RouteAuthorValues | rest_framework_services/dispatch/utils.py:1225-1338 | arguments, rest, keys and the values beside a filter end as the routing of both authors, a provider naming a seed refused |
| AuthorValues.SplitIsUnique | rest_framework_services/dispatch/utils.py:1378-1433 | the split does not depend on the order of the keys |
| Channels.OfflineChannelsAgree | rest_framework_services/dispatch/utils.py:1140-1206 | off HTTP each `UrlKwarg` that is no field is an argument iff the view carries it, each `QueryParam` iff the query string does, nothing either held is overwritten, and each new value is the caller's |
| Channels.ArgumentsComeFromTheirChannels | rest_framework_services/dispatch/utils.py:1112-1206 | each argument is its channel's alone over HTTP where it is declared for one, and otherwise the capture, the value sent or the query string's, in that order |
| Channels.LiveChannelsAreTheUrls | rest_framework_services/dispatch/utils.py:1160-1206 | on a live view neither channel is written, and no declared argument is anything the body says |
| Channels.LiveArgumentAt | rest_framework_services/dispatch/utils.py:1160-1206 | there each declared argument is there iff its channel holds it, with the channel's value; one declared for both is the query string's |
| Channels.PutOnTheRoute | rest_framework_services/dispatch/utils.py:1183-1186 | the loop adds exactly the sent names the route lacks |
| Channels.ThroughTheQuery | rest_framework_services/dispatch/utils.py:1195-1206 | absent arguments are read from the query string, and sent ones it lacks are put there |
| Channels.EdgeArguments | rest_framework_services/dispatch/utils.py:1112-1206 | the arguments, the view's captures and the request's query string end, in place, as the two-way routing |
| ServerValues.OwnedNamesAreTheServers | rest_framework_services/service_specs/serializer_validator.py:431-501 | for one serializer and one set of server values, any two accepted bodies of one kind give the same value, or none, for every owned name and every `source` of one, and that value is what the server handed it |
| ServerValues.OtherNamesAreTheSerializers | rest_framework_services/service_specs/serializer_validator.py:440-456 | every other name is the server's value where one was handed, else the serializer's, less the seeds |
| ServerValues.OwnedExactly | rest_framework_services/service_specs/serializer_validator.py:714-733 | the owned names are the marked ones, the provider's, and the first key of the `source` of a field so named |
| ServerValues.OneValuePerField | rest_framework_services/service_specs/serializer_validator.py:680-769 | where source paths are incomparable and no parameter is claimed twice, each parameter a field claims is handed the value the field validated, and the data holds the same at its `source` where that is still there |
| ServerValues.LaidBackExactly | rest_framework_services/service_specs/serializer_validator.py:736-769 | laying back adds no key and takes none, changes nothing off the held paths, and sets each surviving one to its field's value |
| ServerValues.LaidAtAt | rest_framework_services/service_specs/serializer_validator.py:759-769 | one laying back changes the value at its path alone, where mappings lead to it |
| ServerValues.HandedIsTheLastClaim | rest_framework_services/service_specs/serializer_validator.py:680-711 | each claimed parameter is handed the value of the last field claiming it, and no other is handed one |
| ServerValues.ServersValueIsTheCalls | rest_framework_services/service_specs/serializer_validator.py:431-456 | where source paths are incomparable and no parameter is claimed twice, a value put into a field of its own key is the parameter's and the data's alike, or the call is refused |
| ServerValues.HeldExactly | rest_framework_services/service_specs/serializer_validator.py:551-636 | what is held is exactly what a visited, writable field accepted of the value put |
| ServerValues.JudgedByTheFieldThenItsMethod | rest_framework_services/service_specs/serializer_validator.py:617-628 | a value is judged by the field, and what that accepts by the serializer's `validate_<field>` |
| ServerValues.TakenAsPut | rest_framework_services/service_specs/serializer_validator.py:663-677 | a hidden field takes nothing, any other the value as put, but on a form what it reads of one value there |
| ServerValues.RefusedTogether | rest_framework_services/service_specs/serializer_validator.py:617-636 | every field's refusal is answered, each under its field, and nothing without one |
| ServerValues.CollectServerValues | rest_framework_services/service_specs/serializer_validator.py:610-636 | the field loop collects the held values and the refusals in field order |
| ServerValues.HandOn | rest_framework_services/service_specs/serializer_validator.py:705-711 | the loop hands each held value under its key and its author's key, later ones over earlier |
| ServerValues.LayBack | rest_framework_services/service_specs/serializer_validator.py:759-769 | the loop lays each held value over its path |
| ServerValues.ValidateCall | rest_framework_services/service_specs/serializer_validator.py:431-456 | the Validator's verdict, values and data are those the ownership theorems are about |
| Requiredness.RelaxesExactlyTheRight | rest_framework_services/service_specs/kernel_spec_variant.py:198-255 | of a spec with no `TypedDict` keys a read stays required in the variant iff it compiled required and its declaration says `required=True` or a callable marks it `InputRequired`; nothing else of it moves |
| Requiredness.RelaxesByKeywordAlone | rest_framework_services/service_specs/as_kernel_spec.py:1209-1260 | with `TypedDict` keys, it is also kept where no callable takes the name as a keyword parameter with no default |
| Requiredness.AKeyBesideAKeywordIsRelaxed | rest_framework_services/service_specs/as_kernel_spec.py:1226-1236 | a required key of one callable's `TypedDict` that another takes as a plain keyword is relaxed |
| Requiredness.CompiledRequired | rest_framework_services/service_specs/as_kernel_spec.py:1453-1523 | a compiled read is required only for its declaration, the selector or a precondition |
| Requiredness.RequiredExactly | rest_framework_services/service_specs/as_kernel_spec.py:1453-1603 | a compiled read is required iff its kept declaration says so, or, with no default declared, the selector requires it or a precondition does and it is declared; a callable requires a name by a parameter with no default that nothing else may fill, by a mark, or by a `TypedDict` key |
| Requiredness.CompiledNames | rest_framework_services/service_specs/as_kernel_spec.py:1453-1477 | every name the selector takes by keyword or key and every declared read that is no shape is compiled, less the filter's, and nothing else |
| Requiredness.DefaultExactly | rest_framework_services/service_specs/as_kernel_spec.py:1606-1642 | a compiled read's default is its declaration's, else that of an unmarked parameter of its name |
| Requiredness.RequiredForAReason | rest_framework_services/service_specs/as_kernel_spec.py:1530-1603 | a callable with no `TypedDict` requires a name only for having no default or for its mark |
| Requiredness.VariantMovesRequired | rest_framework_services/service_specs/kernel_spec_variant.py:240-255 | the relaxation moves `required` alone, and exactly for the names it is given |
| Requiredness.Reflect | rest_framework_services/service_specs/as_kernel_spec.py:1566-1603 | the reflecting loop lists every keyword parameter and key that is no pool name and not hidden, in signature order |
| Requiredness.Merge | rest_framework_services/service_specs/as_kernel_spec.py:1453-1477 | popping each declared read as its namesake takes it gives the reflected order, then the declared reads left over, less the filter's |
| Requiredness.NameRequiredForHavingNoDefault | rest_framework_services/service_specs/as_kernel_spec.py:1238-1250 | the accumulated names are the callables' plain required ones less every marked one and every declaration saying so |
| Declarations.PathBound | rest_framework_services/jsonschema/utils.py:434-468 | a path on which no class appears more than four times is at most four times the number of classes long |
| Declarations.RoomShrinks | rest_framework_services/jsonschema/utils.py:434-448 | entering a serializer keeps that invariant and strictly spends the bound, so the walk ends on every declaration |
| SchemaWalk.DescribeSerializer | rest_framework_services/jsonschema/utils.py:366-468 | the walk, as it runs, terminates on every declaration over finitely many classes and fills `properties` and `required` in declaration order |
| SchemaWalk.FillProperties | rest_framework_services/jsonschema/utils.py:451-468 | its loop skips what the direction skips and fills both in declaration order |
| SchemaWalk.DescribeField | rest_framework_services/jsonschema/utils.py:76-159 | a field is described by its rule, its list's element or its nested serializer, on the same measure |
| SchemaWalk.TruncationIsExact | rest_framework_services/jsonschema/utils.py:387-468 | the walk under `max_depth=d` is the walk with no depth, every serializer node at level d or deeper cut to an open object |
| SchemaWalk.DescribedInFull | rest_framework_services/jsonschema/utils.py:387-468 | nothing is truncated iff the schema is the declaration's full unfolding and no class is on a path of it more than four times |
| SchemaWalk.AlwaysRenderedExactly | rest_framework_services/jsonschema/utils.py:189-196 | a field is said to be always rendered iff DRF, lacking the attribute, never skips its key |
| SchemaWalk.NestingIsBounded | rest_framework_services/jsonschema/utils.py:434-468 | no schema nests deeper than four times the classes, or than the depth asked for |
| SchemaWalk.CountdownSurvives | rest_framework_services/jsonschema/utils.py:40-62 | a self-bounded countdown is published whole exactly up to the allowance of four |
| WalkAgreement.OutputsAgree | rest_framework_services/service_specs/serializer_presenter.py:294-436 | with no rule the output schema and the presenter's Output list the same fields in order, mark the same ones present and truncate the same nodes, at every depth |
| WalkAgreement.InputsAgree | rest_framework_services/service_specs/utils.py:1106-1210 | the input schema and the input parameters agree likewise, hidden fields apart |
| WalkAgreement.TypesAgree | rest_framework_services/jsonschema/utils.py:104-157 | whatever type the schema names for a field the kernel's side names too, one choice beside one value and several beside an array of them; it names one the schema does not for a dict, a set of keys, and of a parameter a file, a duration and `any` |
| WalkAgreement.AgreeingNames | rest_framework_services/jsonschema/utils.py:451-468 | agreeing levels have the same names in order iff no listed field is hidden, and then the same required names |
| WalkAgreement.ShapedOutputAgrees | rest_framework_services/service_specs/serializer_presenter.py:355-377 | a shaped spec's output loses presence at every depth and nothing else |
| WeakCaches.LookupsAreSound | rest_framework_services/service_specs/kernel_spec_variant.py:105-120 | over every run of allocations, ends, id reuse and lookups, a lookup answers an object compiled from that very source under that key, and the same one while the source lives |
| WeakCaches.StepKeepsValid | rest_framework_services/service_specs/kernel_spec_variant.py:105-120 | every step keeps each entry at the id of its own live source, holding what was compiled from it |
| WeakCaches.SameWhileItLives | rest_framework_services/service_specs/kernel_spec_variant.py:27-32 | what is held for a source stays held over every run it lives through |
| WeakCaches.FreedForGood | rest_framework_services/service_specs/kernel_spec_variant.py:105-112 | an object freed is never live again, whatever takes its id |
| WeakCaches.TwinsLiveWithTheSpec | rest_framework_services/dispatch/utils.py:1742-1828 | a variant's bundled or guarded twin is the same object for as long as the drfs spec lives |
| WeakCaches.TwinsOfTwinsLiveWithTheSpec | rest_framework_services/dispatch/utils.py:1742-1828 | and so is a twin of that twin, as the guarded twin of a bundled one is |
| WeakCaches.Process.LookUp | rest_framework_services/service_specs/kernel_spec_variant.py:105-120 | the locked lookup, in place, is the step and answers what the state says |
| WeakCaches.Process.End | rest_framework_services/service_specs/kernel_spec_variant.py:107-110 | an object's end runs each callback, then frees its id, and leaves the entries as the step says |
| WeakCaches.Process.Callback | rest_framework_services/service_specs/kernel_spec_variant.py:110 | a death callback pops whatever its table holds at that id |
| IdentityKeys.AskedOncePerCall | rest_framework_services/service_specs/utils.py:1062-1089 | over any run of a call, asking again for the same objects answers the same and computes nothing, with freed ids reusable |
| IdentityKeys.HitsAreForTheSame | rest_framework_services/service_specs/utils.py:995-1025 | a key is held iff some entry is for those very objects |
| IdentityKeys.EntriesLast | rest_framework_services/service_specs/utils.py:1081-1089 | an entry and the objects it was built for last the whole call |
| IdentityKeys.StepKeepsValid | rest_framework_services/service_specs/utils.py:995-1025 | every step keeps each entry's objects live and its key theirs |
| IdentityKeys.KeyTellsObjects | rest_framework_services/service_specs/utils.py:1081-1085 | among live objects two keys are equal iff they are made of the same objects |
| IdentityKeys.AsksApart | rest_framework_services/service_specs/utils.py:1081-1085 | two asks share a key iff they are one callable's, handed the same objects by the same names |
| IdentityKeys.PairsApart | rest_framework_services/service_specs/utils.py:995-1015 | two offline pairs share a key iff all five parts are the same, an empty mapping of shapes read as none |
| IdentityKeys.EdgeCaches.Held | rest_framework_services/service_specs/utils.py:1081-1089 | the lookup, in place, is the step and answers what the state says |
| IdentityKeys.EdgeCaches.ContextAnswer | rest_framework_services/service_specs/utils.py:1062-1089 | a context callable's answer is looked up by the callable and what it is handed |
| IdentityKeys.EdgeCaches.OfflinePair | rest_framework_services/service_specs/utils.py:950-1025 | an offline pair is looked up by all it is built for |
| Description.EdgeCall.BoundDescription | rest_framework_services/service_specs/utils.py:246-300 | a description is handed over iff it is what binding afresh would build: the same body, row, flags and context objects, never the stand-in and never one that has validated |
| Description.EdgeCall.DescribeSerializer | rest_framework_services/service_specs/utils.py:107-171 | a declaration is described once per call; one that cannot be built leaves no description, or the stand-in while a row is pending |
| Description.EdgeCall.DescribeWith | rest_framework_services/service_specs/utils.py:233-243 | a new binding drops that declaration's description and no other |
| Description.EdgeCall.Validate | rest_framework_services/service_specs/serializer_validator.py:529-535 | the serializer validated is bound as asked, is the description exactly where that is a fresh bind, and no other description is touched |
| Description.ValidatesOnce | rest_framework_services/service_specs/utils.py:246-271 | two bindings alike validate two serializers |
| Description.BaseContext.CallBaseContext | rest_framework_services/service_specs/utils.py:651-674 | one request and view ask the view once, and each caller is handed a copy of its own |
| Description.CopiesAreIndependent | rest_framework_services/service_specs/utils.py:651-674 | what is written to one copy the next never holds |
| RowRefusals.RowErrorsAreConserved | rest_framework_services/service_specs/serializer_validator.py:772-787 | re-keyed by row a refusal holds as many errors, each under the caller's own index, the list's own under its key, and nothing under another index |
| RowRefusals.ShapesAgree | rest_framework_services/service_specs/serializer_validator.py:782-787 | DRF's list and mapping of the same errors give one result |
| RowRefusals.LayingOutRoundTrips | rest_framework_services/dispatch/utils.py:2195-2223 | laying keyed rows out as a list and reading it back by row is the identity on non-empty rows in range |
| RowRefusals.BareAnswerExactly | rest_framework_services/dispatch/utils.py:2195-2237 | bare rows are answered as the list serializer refused them, else under `non_field_errors`, by position, or as they are; and stay keyed where anything beside them is refused |
| BulkValidation.RefusalKeysRows | rest_framework_services/service_specs/serializer_validator.py:772-787 | either shape of a list serializer's refusal keys each row's errors by its own index |
| BulkValidation.ListSerializer.ListJudged | rest_framework_services/service_specs/serializer_validator.py:320-385 | the list bound is accepted iff its length, every row and its own checks are, with each row's value in its place; its length is refused under the list's own key |
| BulkValidation.RowsPastARefusal | rest_framework_services/service_specs/serializer_validator.py:387-429 | beside a refused row the list is judged by its bounds as sent, the rest are read uncounted, and each refused one sits under its own index |
| BulkValidation.ValidatedMany | rest_framework_services/service_specs/serializer_validator.py:320-385 | rows are judged as DRF judges the list bound, refused under the caller's indices, and a valid list beside undeclared keys is refused for those |
| BulkValidation.BareAnswerHoldsEachRow | rest_framework_services/dispatch/utils.py:2195-2223 | off HTTP a bare list is answered with one entry per row sent: the kernel's, the list serializer's, or nothing |
| BulkValidation.NoMoreThanSent | rest_framework_services/service_specs/serializer_validator.py:417-421 | the rows left once the kernel refused one are no more than were sent, in whatever order, so never past a maximum the list sent met |
| Rewording.RewordingKeepsErrors | rest_framework_services/dispatch/utils.py:2131-2186 | off `non_field_errors` the reworded refusal holds exactly the errors it was given, less those under an undeclared key refused only as unknown, at the top or in a row |
| Rewording.LevelReworded | rest_framework_services/dispatch/utils.py:2131-2186 | each level key by key: what is gone, what is kept and what `non_field_errors` gains |
| Rewording.OnlyUnknownExactly | rest_framework_services/dispatch/utils.py:2189-2192 | a key is only unknown iff all that iterating its errors yields is messages so coded |
| Rewording.BeforeIsLexicographic | rest_framework_services/dispatch/utils.py:2178-2186 | the names of the message are ordered by the first character that differs |
| Rewording.KeyTextSaysTheIndex | rest_framework_services/dispatch/utils.py:2178-2186 | a row's index is named by its number |
| Rewording.NonFieldKept | rest_framework_services/dispatch/utils.py:2170-2186 | `non_field_errors` keeps its messages before one sorted message naming the unknown keys, iff it was absent, a list, or held none |
| Rewording.AMappedMessageIsLost | rest_framework_services/dispatch/utils.py:2170-2186 | a mapping under `non_field_errors` beside an unknown key is left as its bare keys, its message lost |
| Rewording.RowsAreReworded | rest_framework_services/dispatch/utils.py:2131-2186 | every row a path of declared arrays and rows leads to is reworded as the top level is |
| Rewording.NonFieldKeptInRows | rest_framework_services/dispatch/utils.py:2131-2186 | so a row's `non_field_errors`, at any depth, keeps its messages under the same condition |
| Rewording.RewordingIsIdempotent | rest_framework_services/dispatch/utils.py:2131-2186 | rewording twice is rewording once |
| Rewording.RewordUnknown | rest_framework_services/dispatch/utils.py:2131-2186 | the loop, as it runs, rewords the level and each of its rows |
| Rewording.SortSorts | rest_framework_services/dispatch/utils.py:2178-2186 | the message names each unknown key as often as it was refused, in order |
| WireNames.RenamingConserves | rest_framework_services/dispatch/utils.py:2670-2692 | a level renamed keeps every key's errors iff no field is refused by both its `source` and its wire name |
| WireNames.RenamingConservesTheTree | rest_framework_services/dispatch/utils.py:2670-2692 | a whole refusal renamed never gains an error, and keeps every one iff no level of it refuses a field by both its names |
| WireNames.EveryErrorIsAtItsWirePath | rest_framework_services/dispatch/utils.py:2670-2692 | whatever a path of keys and list positions leads to in a refusal named once throughout is at that path renamed key by key, and is itself renamed by the names in force there alone |
| WireNames.MessagesAreAtTheirWirePath | rest_framework_services/dispatch/utils.py:2670-2692 | so a field's list of messages is word for word at its wire path |
| WireNames.NothingIsMadeUp | rest_framework_services/dispatch/utils.py:2670-2692 | named once or not, all that stands at a path of the renamed refusal is what some path of the refusal led to |
| WireNames.AListedRowsErrorIsFound | rest_framework_services/dispatch/utils.py:2670-2692 | the messages of a listed row's field are found in that row, each key by its wire name |
| WireNames.OneOfTwoRefusalsIsLost | rest_framework_services/dispatch/utils.py:2670-2692 | a field refused under both its names keeps one of the two errors |
| WireNames.WireNamesAreInjectiveThroughout | rest_framework_services/dispatch/utils.py:2643-2667 | a serializer's names, nested ones included, give no wire name to two sources |
| WireNames.FieldsAreAtTheirWirePath | rest_framework_services/dispatch/utils.py:2643-2692 | a serializer's names rename the way to a field, `source` by `source`, to the way by wire names, through nested serializers and their rows |
| WireNames.NamedSourcesExactly | rest_framework_services/dispatch/utils.py:2643-2667 | the sources named are exactly the writable fields', less a dotted one and `*` |
| WireNames.LastWins | rest_framework_services/dispatch/utils.py:2670-2692 | what ends under a key is the last entry renamed to it |
| WireNames.WireNamesAreInjective | rest_framework_services/dispatch/utils.py:2643-2667 | no wire name is given to two sources, and a source is named after the first writable field that has it |
| WireNames.WireNamedTable | rest_framework_services/dispatch/utils.py:2670-2692 | the loop, as it runs, is the renaming |
| Translation.Propagate | rest_framework_services/dispatch/utils.py:1856-1955 | through any nesting of translating callables and of edge calls with no input serializer (or, for a denial, any; for a refusal of the arguments, any not taking bare rows): an author's DRF exception leaves an outermost edge as that same exception, unchanged; a kernel-only refusal leaves as its dual class, one of the arguments however it is worded; and one already dual leaves as itself, one of the arguments iff no edge puts another in its place; so what leaves is of no kernel kind the refusal was not of, of its one kind where it had one, and past an edge DRF's too |
| Translation.ArgumentsStayArguments | rest_framework_services/dispatch/utils.py:1920-1950 | an edge leaves a refusal of the arguments this package's `InvalidArguments`, with the detail it words it with |
| Translation.NothingReplacedKeepsDetail | rest_framework_services/dispatch/utils.py:1946-1950 | through edges that put nothing in its place a refusal keeps its detail |
| Translation.TwinsAreBothSides | rest_framework_services/service_specs/translate_drf_refusals.py:99-116 | a twin is both sides' class, is translated by neither handler again, and is caught as the original was iff that was of one DRF kind |
| Translation.DualsAreBothSides | rest_framework_services/service_specs/translate_dispatch_errors.py:75-95 | a dual is built iff a kernel refusal is of the three kinds and not DRF's; it is both sides' class, DRF's validation error of the arguments and its denial of the rest, is of no kernel kind the refusal was not, and of all it was iff that was one |
| Translation.ReplacedExactly | rest_framework_services/dispatch/utils.py:1921-1950 | a refusal of the arguments is replaced by DRF's validation error iff it is of bare rows refused as no list or in a list's shape, else by this package's where its words change |
| Translation.RenamedExactly | rest_framework_services/dispatch/utils.py:1951-1955 | a validation error is renamed iff there is an input serializer |
| Translation.RenamedIsOfItsOwnClass | rest_framework_services/dispatch/utils.py:2695-2708 | a renamed error is of one of its own classes, a service's where it was one |
| Translation.TranslatedExactly | rest_framework_services/service_specs/translate_drf_refusals.py:99-116 | what is translated is exactly a DRF refusal of the three kinds that is not the kernel's already |
| Translation.TranslateDrfRefusals | rest_framework_services/service_specs/translate_drf_refusals.py:34-96 | the twin carries the detail, the status and the exception itself |
| Translation.TranslateDispatchErrors | rest_framework_services/service_specs/translate_dispatch_errors.py:24-95 | a kernel refusal of the three kinds leaves as its dual, with its detail and message; any other leaves as itself |
| Translation.EdgeErrors | rest_framework_services/dispatch/utils.py:1856-1955 | an edge restores what an author raised, its context put back; translates the kernel's own; answers a refusal of the arguments in DRF's words for the body, as bare rows, or reworded, and as it is where that changes nothing; and renames a validation error only with an input serializer |
| Markers.NoMarkerIsIgnored | rest_framework_services/types/read_schema_markers.py:24-137 | where reading succeeds the type returned carries no marker and the one layer read held every marker of the annotation |
| Markers.ReadingKeepsTheType | rest_framework_services/types/read_schema_markers.py:24-137 | the type returned admits exactly what the annotation did, `None` among it |
| Markers.ReadTypeIsWellFormed | rest_framework_services/types/read_schema_markers.py:24-137 | and is one `typing` would have built |
| Markers.ContradictionExactly | rest_framework_services/types/read_schema_markers.py:24-106 | reading answers a contradiction iff well-placed markers say both |
| Markers.RefusedExactlyWhereMisplaced | rest_framework_services/types/read_schema_markers.py:108-137 | reading refuses a placement iff some marker is off the outermost layer |
| Markers.BothReadersReadOneLayer | rest_framework_services/types/read_input_description.py:64-79 | the description's reader finds the descriptions of that very layer, by a rule of its own |
| Markers.DescriptionIsTheAnnotations | rest_framework_services/types/read_input_description.py:14-61 | what is published, or refused, is decided by the descriptions of the whole annotation |
| Markers.CarriesMeansMarkers | rest_framework_services/types/read_schema_markers.py:125-145 | an annotation carries a marker iff there is one somewhere in it |

## Left out

- The kernel itself, DRF's fields, Django's querysets and `FilterSet`: assumed or opaque, as stated above.
- Async twins, HTTP views, routers, OpenAPI glue, the offline context builder, label, help and message wording: no logic beside what is modelled.
- Locks and threads: every cache operation is one atomic step.
- Finding a target lookup's row, and the values beside a lookup's own filter. `InputWire` is a service with no target lookup; `InputCall` starts from the arguments the edge received.
- `SPREAD_AUTHOR_WINS` services: `BundledService` is the `BUNDLE` binding alone.
- A dispatch outside an edge call, where a compiled callable is handed the kernel's pool as it is.
- The kernel's check of an argument's type, and which refusal a strict call ends with: both come before any callable runs.
- `shapes` is a spec's given set of names; how it is computed is not modelled.
- SelectorCall.OwnNameAt: two keys that strip to one name are resolved to the channel's, where the code keeps the later; `SelectorCall.NoTwoStripToOne` proves a prepared call holds no two.
- ServerValues.LayBack: works on values, so nested mappings that `validate()` made one object are not seen to change together.
- Registry fragments in the presenter's and the input walk, and schema overrides: `WalkAgreement` is about walks with no rule.
- Choice values, lengths, titles, help, nullability: a field is its type, its flags and what it nests.
- A `ListSerializer` whose child is `None`, which DRF never builds.
- `_wire_names` over a serializer nesting itself, on which the code's walk has no bound: fields are a finite tree.
- Translation.EdgeErrors: how an edge words a refusal, and whether its body or bare rows are refused in DRF's words, are given functions of the detail; `Rewording`, `RowRefusals` and `WireNames` model that wording on details of their own.
- `_drf_body_refusal`, `_rows_as_drf`, `_filter_errors_flat`: the shape a body's refusal is worded in.
- What `_compile` changes beside `reads`, and what the guarded and bundled twins hold: `WeakCaches` is about which object a lookup answers.
- A mapping of `shapes` changed after its pair was built.
