# A verified model of the nestrs framework core

nestrs ports the NestJS programming model to Rust. This project models its algorithmic parts in
Dafny and proves what its documentation promises of them.

- **Boot.** `Providers`, `Schedules` and `Registration` hold the provider fixpoint that `#[module]`
  emits: a loop over a `done` array, proved against the least fixpoint of its readiness rule, with
  the exact listing that makes a constructor panic. `Stalls` says when the fixpoint completes and how
  far its two stall messages can be trusted. `ModuleTree` and `Collecting` are the two deduplicated
  import walks, the first proved against a pure depth-first walk that decides whether a boot panics,
  and where. `AccessGraph` is the boot-time import contract, `App` the phases of `AppBuilder::build`,
  and `Assembly` says when a boot succeeds and that its object graph does not depend on any listing
  order. `Graph` has paths, closures and cycles.
- **Authorization.** `Predicates` has one condition AST with a SQL reading (three-valued, after
  sections 8.2, 8.4 and 8.12 of ISO/IEC 9075:1992) and an in-memory reading. `Abilities` has the
  rules, the query pre-filter, the instance check and the response mask. `Repository` has the scoped
  table and its CRUD service, `Pagination` the keyset pages and the walks clients make with them.
- **Transactions.** `Transactions` is the request boundary as a transition system over any number of
  concurrent requests, whose handlers may leak the executor into tasks that outlive them.
- **HTTP.** `Paths` is the path algebra and the document's path table, `Layers` the nesting of
  guards, filters and interceptors.

`dafny verify dfyconfig.toml` checks everything.

## Where the code and its promises part

Each of these is a lemma with a concrete input, beside the condition under which the promise holds.

- *Providers can be listed in any order* (`crates/nestrs-core/src/container.rs:188-191`). A deferred
  provider (request-scoped, controller) listed `as dyn Trait` is built at registration, although its
  macro declares no dependencies to wait for; then the order decides whether an `.expect` fires.
  `RegisterProviders` panics exactly on the listings of `ListingPanics`, and `SomeListingPanicsExactly`
  says which modules have such a listing. For keys and outcome nothing else depends on order
  (`OrderIndependence`). For the values it suffices that keys are unique and not there beforehand, and
  that nothing undeclared looks up an optional key of its own module (`ObjectGraphOrderIndependent`);
  `SharedKeyDependsOnOrder`, `ShadowedKeyDependsOnOrder` and `UndeclaredLookupDependsOnOrder` are
  inputs outside those conditions where the order shows. Over a whole application roots, imports and
  providers can be relisted when, besides, every lookup is met by the module's imports or by nothing
  (`BootOrderIndependent`).
- *The two stall messages name the cause* (`crates/nestrs-macros/src/module.rs:214-232`). The cycle
  message is always right (`CyclePanicIsReal`). The other is right exactly when some required key is
  neither there nor published by the module and no stuck interceptor stands for it
  (`CannotRegisterExactly`, `InterceptorHidesALack`); when nothing is missing, it reports a cycle
  through an optional dependency (`OptionalCycleMisreported`).
- *Cyclic imports are tolerated* (`crates/nestrs-macros/src/module.rs:242-247`). They terminate, and
  do no harm in themselves (`CyclesAloneAreHarmless`). But the module that is entered second runs
  before the first has published anything, so the same cycle that passes the access check panics from
  one root and boots from the other (`ImportCyclePassesCheckButStalls`). A boot panics exactly when
  some loop of the walk does not complete over the keys held at that point (`Register`, `Build`), which
  can be read off the listing and those keys (`BodyCompletesExactly`).
- *The rows a query returns and the rows the response check accepts do not drift apart*
  (`crates/nestrs-authz/src/predicate.rs:1-6`). When every rule literal is bound in its column's own
  variant, the query keeps exactly the accepted rows on which NULL does not get in the way
  (`PrefilterExactly`, `NullGap`); with grants of plain equalities alone it never does
  (`PositiveGrantsAgree`). A literal of another variant, an `i32` on an `i64` column, makes the query
  keep rows that the check rejects and the mask drops (`VariantsExactly`, `VariantDropsRow`).
- *A failed mutation never half-persists* (`crates/nestrs-orm/src/interceptor.rs:5-9`). It does not;
  but a request dropped while its commit is in flight may have persisted everything without ever
  answering (`CommittedUnanswered`), and one whose commit took effect and then reported an error has
  persisted everything and answers an error (`ErrorAfterEffect`).
- *Declared path parameters are the template's names* (sections 4.8.8 and 4.8.12 of OpenAPI 3.1)
  exactly when no literal segment has an opening brace with a closing one after it, and no parameter
  name a closing brace (`ParametersMatchTemplate`, `BracesMisread`).

At the controller and the route the first listed layer ends outermost, as documented. The transport's
global layers come out in the opposite order (`GlobalMeaning`), which is documented for the discovered
interceptors (`crates/nestrs-http/src/interceptor.rs:7-9`).

## Assumptions about unseen libraries

An empty SQL conjunction is true, an empty disjunction false, an empty `IN` list false. Negating a
condition toggles a flag. SQL compares the contents of two values whatever variants they were bound
in; in memory two values are equal when variant and content are. An update never assigns the primary
key and reports `RecordNotUpdated` when its `WHERE` keeps no row. A commit takes effect as a whole or
not at all, possibly after the request that sent it was dropped; one that reports success took effect,
and one that reports an error has or has not by then. A request is dropped only where its code awaits.
Leaked tasks clone, write and drop the executor but do not commit it themselves. `poem` calls the
wrappers as they are nested.

## Model

| member | source | states |
|---|---|---|
| Providers.BuildInjectableBody | crates/nestrs-codegen/src/inject.rs:46-136 | the field loop fills the required and the optional key vectors, in field order |
| Providers.RequiredKeysAt | crates/nestrs-codegen/src/inject.rs:94-122 | a key is a declared dependency iff some `Arc` field injects it |
| Providers.OptionalKeysAt | crates/nestrs-codegen/src/inject.rs:72-91 | a key is an optional dependency iff some `Option<Arc>` field injects it |
| Providers.KeysInFieldOrder | crates/nestrs-codegen/src/inject.rs:46-136 | both vectors are what the fields contribute, in field order |
| Providers.ExpectFiresIffKeyMissing | crates/nestrs-codegen/src/inject.rs:101-122 | construction panics iff a declared key is absent, and otherwise resolves every field |
| Providers.ConstructionExactly | crates/nestrs-codegen/src/inject.rs:70-130 | construction panics iff the key of some `Arc` field is absent; otherwise an injected field holds the instance the container has under its key, an optional one holds it if there is one, and a plain one is left to its default |
| Providers.Least | crates/nestrs-macros/src/module.rs:131-153 | the least set closed under the readiness rule exists |
| Providers.LeastAreReady | crates/nestrs-macros/src/module.rs:131-153 | what the fixpoint registers is ready over all of it |
| Schedules.RegistrationByKind | crates/nestrs-macros/src/module.rs:118-129 | what registering each kind of provider declares, builds, publishes and leaves alone, with the instances its fields hold |
| Schedules.SettledIsLeast | crates/nestrs-macros/src/module.rs:198-235 | any registration order that can go no further registered exactly the least fixpoint, stale pending keys and repeated listings notwithstanding |
| Schedules.OptionalSuppliedIsPresent | crates/nestrs-macros/src/module.rs:132-144 | an optional dependency the same module publishes is present when its consumer is built |
| Schedules.ScheduleSelfConsistent | crates/nestrs-macros/src/module.rs:136-148 | with unambiguous keys every field of every published instance holds the instance that ends up under its key, an optional field being empty only when there is none |
| Schedules.SelfConsistentIsUnique | crates/nestrs-macros/src/module.rs:136-148 | two containers consistent with themselves over the same providers are equal |
| Schedules.ObjectGraphOrderIndependent | crates/nestrs-macros/src/module.rs:131-153 | under unambiguous keys every listing of the same providers builds the same object graph |
| Schedules.SharedKeyDependsOnOrder | crates/nestrs-core/src/container.rs:110-159 | two providers of one key: the last registration wins, so the built container depends on the listing |
| Schedules.ShadowedKeyDependsOnOrder | crates/nestrs-core/src/container.rs:110-159 | a provider that shadows a key already there: its consumer gets the old value or the new one |
| Schedules.UndeclaredLookupDependsOnOrder | crates/nestrs-macros/src/module.rs:118-129 | an optional lookup that was never declared finds a value or nothing, depending on the listing |
| Registration.ContainerBuilder.constructor | crates/nestrs-core/src/container.rs:86-108 | a builder starts empty |
| Registration.ContainerBuilder.Provide | crates/nestrs-core/src/container.rs:112-134 | registering a key replaces its value and no other |
| Registration.ContainerBuilder.MarkRegistered | crates/nestrs-core/src/container.rs:201-203 | true the first time only, and remembered |
| Registration.ContainerBuilder.MarkCollected | crates/nestrs-core/src/container.rs:208-210 | the same for the collect phase |
| Registration.ContainerBuilder.TakeFactories | crates/nestrs-core/src/container.rs:265-267 | drains the queue, in order |
| Registration.ContainerBuilder.RegisterOne | crates/nestrs-macros/src/injectable.rs:57-72 | one register action fails iff it builds now and the key of some `Arc` field is absent; otherwise it publishes what the kind publishes, with fields that hold what the container had |
| Registration.ContainerBuilder.Round | crates/nestrs-macros/src/module.rs:202-210 | one round keeps a valid schedule, leaves nothing ready when it makes no progress, and panics only if it is the first, at the first provider of the listing that has to |
| Registration.ContainerBuilder.RegisterProviders | crates/nestrs-macros/src/module.rs:198-235 | the loop terminates; it panics in a constructor exactly on the listings where one pass says so, at the first such provider; otherwise it registers each provider once with everything it injects present and ends in the verdict and the keys of the least fixpoint |
| Registration.ContainerBuilder.Classify | crates/nestrs-macros/src/module.rs:159-189 | finds the index lists of the two stall messages |
| Registration.DiagnosisExactly | crates/nestrs-macros/src/module.rs:159-189 | they are, ascending, the stuck providers that lack only keys of pending ones, and the others; the others are reported whenever there are any |
| Registration.LoopVerdict | crates/nestrs-macros/src/module.rs:198-235 | however a run of the loop went, its report is the verdict of the least fixpoint and its keys are those of the fixpoint |
| Registration.ConstructorPanicCause | crates/nestrs-macros/src/module.rs:118-129 | a ready provider panics in its constructor only if bound `as dyn` without declared dependencies |
| Registration.SomeListingPanicsExactly | crates/nestrs-macros/src/injectable.rs:38-57 | some listing of a module panics, and some run of the loop over some listing does, iff a provider bound as dyn without declared dependencies injects a key not there beforehand |
| Registration.OrderIndependence | crates/nestrs-macros/src/module.rs:131-158 | two runs of the loop over two listings of the same providers report the same outcome, stuck set and culprits, register the same providers and leave the same keys |
| Registration.BodyCompletesExactly | crates/nestrs-macros/src/module.rs:198-235 | with distinct keys a module's loop gets through iff one pass over the listing panics nowhere, no required key is missing and nothing waits in a circle |
| Stalls.SuppliedAndAcyclicCompletes | crates/nestrs-macros/src/module.rs:131-153 | supplied keys and no circular wait, optional waits included, mean every provider registers |
| Stalls.CompletesExactly | crates/nestrs-macros/src/module.rs:131-153 | with distinct keys every provider registers iff each required key is there or published by the module and no circular wait, optional waits included, runs among keys not there beforehand |
| Stalls.CyclePanicIsReal | crates/nestrs-macros/src/module.rs:176-182 | the cycle panic implies a cycle of required dependencies among the stuck providers |
| Stalls.CannotRegisterExactly | crates/nestrs-macros/src/module.rs:183-187 | the "cannot register" panic names a provider that lacks something iff some required key is neither there nor published by the module and every interceptor that stands for it has registered; if nothing is lacking, there is a cycle of waits |
| Stalls.RequiredOnlyNamesALack | crates/nestrs-macros/src/module.rs:183-187 | without optional injections the panic always names a provider that lacks something |
| Stalls.InterceptorHidesALack | crates/nestrs-macros/src/module.rs:179-187 | a key that only a stuck interceptor stands for is nobody's to publish, yet its consumer is reported as waiting |
| Stalls.OptionalCycleMisreported | crates/nestrs-macros/src/module.rs:179-187 | a cycle through an optional dependency is reported as an unprovided one although nothing is missing |
| ModuleTree.HealthyModuleCompletes | crates/nestrs-macros/src/module.rs:198-235 | once its closure is complete, the loop of a healthy module gets through |
| ModuleTree.Register | crates/nestrs-macros/src/module.rs:242-255 | the recursion does exactly what the pure depth-first walk says, values included: it ends without panic iff every loop of the walk completes over the keys it finds, and otherwise in the first loop that does not, with the report that loop must make |
| ModuleTree.RegisterImports | crates/nestrs-macros/src/module.rs:17-28 | the import calls follow the walk of the imports, in order |
| ModuleTree.VisitExplores | crates/nestrs-macros/src/module.rs:242-255 | on any import graph, cyclic or not, the walk runs exactly the unmarked modules below, each once, and adds exactly their keys |
| ModuleTree.ReadyVisit | crates/nestrs-macros/src/module.rs:242-255 | without import cycles every loop runs after the configuration of its own imports and after all the modules below its own |
| ModuleTree.ImportOrder | crates/nestrs-macros/src/module.rs:17-28 | imports are walked in listed order: what none of the first imports leads to comes after each of them has had its turn |
| ModuleTree.StopsIsNotFine | crates/nestrs-macros/src/module.rs:214-232 | a walk that panics somewhere is not one in which every loop completes |
| ModuleTree.HealthyVisit | crates/nestrs-macros/src/module.rs:198-255 | in a healthy tree every loop of the walk completes |
| Collecting.Collect | crates/nestrs-macros/src/module.rs:257-270 | the collect phase makes the same depth-first walk as the register phase, with marks of its own, and queues the factories of each dynamic import it comes to in the order of the walk |
| Collecting.CollectImports | crates/nestrs-macros/src/module.rs:33-41 | the factories of the imports, those of static imports included, are queued in listed order |
| Collecting.QueueInOrder | crates/nestrs-macros/src/module.rs:33-41 | the factories of a dynamic import are queued as it lists them, after those of the imports before it in the walk |
| Collecting.VisitSites | crates/nestrs-macros/src/module.rs:257-270 | on any import graph the walk comes to every dynamic import of each module it runs, once |
| AccessGraph.ByIdIsLast | crates/nestrs-core/src/access.rs:190-191 | of several descriptors of one module the last counts |
| AccessGraph.Reachable | crates/nestrs-core/src/access.rs:250-264 | the walk returns exactly the modules an import path from a root leads to |
| AccessGraph.ReachSetIsAll | crates/nestrs-core/src/access.rs:248-249 | that finite set is all of reachability |
| AccessGraph.ProvidedBy | crates/nestrs-core/src/access.rs:193-203 | a key has an owner iff some module provides it, and it is the first that does |
| AccessGraph.ProvidedKeys | crates/nestrs-core/src/access.rs:215-222 | the keys provided by a set of modules, no more and no fewer |
| AccessGraph.CheckModule | crates/nestrs-core/src/access.rs:224-243 | Ok iff no provider of the module breaks the contract; an error names one that does |
| AccessGraph.ValidateAccessGraph | crates/nestrs-core/src/access.rs:185-246 | Ok iff no root-reachable provider injects a provided key outside global and closure; an error names a violation and the first module that provides the dependency |
| AccessGraph.ContractExactly | crates/nestrs-core/src/access.rs:224-243 | that is, iff whatever a root-reachable provider injects is global, or provided in its module's import closure, or provided nowhere |
| AccessGraph.ValidateResolverMembership | crates/nestrs-core/src/access.rs:275-301 | Ok iff every resolver is listed by a reachable module; an error names one that is not |
| AccessGraph.LargerGlobalKeepsContract | crates/nestrs-core/src/access.rs:183-184 | enlarging the global set never breaks a boot |
| AccessGraph.ImportBetweenReachableKeepsContract | crates/nestrs-core/src/access.rs:205-222 | an import between two reachable modules never breaks a boot |
| App.PhaseExactly | crates/nestrs-core/src/app.rs:295-307 | the phase succeeds iff every turn does, where a turn leaves a supplied key alone and otherwise adds what its factory makes of the container at that moment, and it ends with what the last turn leaves |
| App.SeededNeverFails | crates/nestrs-core/src/app.rs:296-304 | when the seeds supply every queued key no factory runs and the phase leaves the seeds |
| App.FactoryPhase | crates/nestrs-core/src/app.rs:295-311 | seeds win, else the first queued factory of the key, run on the outcome of the queue before it; the global set is exactly those keys |
| App.EarlierOutputsSeen | crates/nestrs-core/src/app.rs:160-165 | what a factory sees is never replaced later in the phase |
| App.FactoryLoop | crates/nestrs-core/src/app.rs:301-307 | the loop takes the turns in order, succeeds iff all of them do, and ends with what the last one leaves |
| App.CollectRoots | crates/nestrs-core/src/app.rs:292-294 | the queue grows by the factories of the dynamic imports in the order of the walk from the roots |
| App.RootsSites | crates/nestrs-core/src/app.rs:292-294 | which comes to each dynamic import below the roots once |
| App.RegisterRoots | crates/nestrs-core/src/app.rs:313-315 | the root calls do what the walk from the roots says, and panic exactly where it says |
| App.RootOrder | crates/nestrs-core/src/app.rs:313-315 | roots are walked in listed order: what none of the first roots leads to comes after their own loops |
| App.RootsExplore | crates/nestrs-core/src/app.rs:313-315 | exactly the modules below the roots run, each once, and add exactly their keys |
| App.HealthyRoots | crates/nestrs-core/src/app.rs:313-315 | in a healthy tree no module panics |
| App.Build | crates/nestrs-core/src/app.rs:283-333 | the factory phase fails iff some turn over the queue, in the order of the walk, does, and never when the seeds supply every queued key; a module panics iff some loop of the walk does not complete; the build succeeds iff neither happens and the access contract and the resolver membership hold, and then the container is what the walk built with the overrides on top |
| App.FinalChecks | crates/nestrs-core/src/app.rs:323-327 | the access contract decides first, then the resolver membership; an error names a violation and an owner, or an unlisted resolver |
| App.DescribedExactly | crates/nestrs-macros/src/injectable.rs:36-42 | a module submits each provider's key and exactly the keys its `Arc` fields inject, whenever it is built |
| App.OverriddenAt | crates/nestrs-core/src/app.rs:316-320 | an override replaces the value of its key, the last one wins, and nothing else changes |
| App.ContractImpliesSupplied | crates/nestrs-core/src/access.rs:229-241 | what the access check accepts the provider loops can resolve, when each required key is global or offered by providers that publish it |
| App.ImportCyclePassesCheckButStalls | crates/nestrs-macros/src/module.rs:245-253 | an import cycle that passes the access check, panics when booted from one of its modules, whatever the run, and boots from the other |
| App.CyclesAloneAreHarmless | crates/nestrs-macros/src/module.rs:242-255 | without providers any import graph boots |
| Assembly.BootExactly | crates/nestrs-core/src/app.rs:283-333 | for acyclic imports, declared dependencies and keys that each stand for one provider that publishes them, a boot the access check accepts gets through its loops iff every required key is global or published in the import closure and no waits are circular |
| Assembly.BootSelfConsistent | crates/nestrs-macros/src/module.rs:131-153 | every field of every instance a boot publishes holds the instance under its key when the boot ends, an optional field being empty only when there is none |
| Assembly.BootOrderIndependent | crates/nestrs-core/src/container.rs:188-191 | two boots of one application, with roots, imports and providers listed in different orders, assemble equal containers |
| Assembly.BootOutcomeOrderIndependent | crates/nestrs-core/src/container.rs:188-191 | and if one gets through its loops and the access check, so does the other through its loops |
| Predicates.MatchesMeaning | crates/nestrs-authz/src/predicate.rs:32-62 | the in-memory reading: equality of variant and content, membership, all, any, not |
| Predicates.SqlReading | crates/nestrs-authz/src/predicate.rs:32-62 | the SQL reading is the in-memory answer where NULL leaves it settled and unknown elsewhere, exactly, at any nesting |
| Predicates.InterpretersAgree | crates/nestrs-authz/src/predicate.rs:32-62 | with literals of their columns' variants, SQL true implies a match and SQL false none, and without NULLs the readings are equal, at any nesting |
| Predicates.EqualityExactly | crates/nestrs-authz/src/predicate.rs:35-53 | an equality keeps the rows whose content is the literal's, and matches those whose variant is too, NULL equal to NULL in memory only |
| Predicates.NullParts | crates/nestrs-authz/src/predicate.rs:35-60 | with a NULL the in-memory reading accepts what the query drops |
| Predicates.PositiveMatchIsDefinite | crates/nestrs-authz/src/predicate.rs:49-62 | a match by plain equalities is settled however many NULLs the row has |
| Predicates.VariantsExactly | crates/nestrs-authz/src/predicate.rs:53-56 | a list of literals agrees with SQL on every row iff each that is not NULL is there in the column's own variant |
| Predicates.VariantExactly | crates/nestrs-authz/src/predicate.rs:53 | a single literal does iff it is NULL or has the column's variant |
| Abilities.PrefilterExactly | crates/nestrs-authz/src/ability.rs:69-102 | the pre-filter keeps exactly the rows that pass `can` and on which a matching grant and every denial are settled |
| Abilities.PrefilterRefinesCheck | crates/nestrs-authz/src/ability.rs:69-102 | a row the pre-filter keeps passes `can`; without NULLs the two accept the same rows |
| Abilities.PositiveGrantsAgree | crates/nestrs-authz/src/ability.rs:69-102 | grants by plain equalities, without denials, agree with `can` on every row, NULLs included |
| Abilities.NullGap | crates/nestrs-authz/src/ability.rs:69-102 | a denial on a NULL column hides the row from the query only |
| Abilities.ConditionForMeaning | crates/nestrs-authz/src/ability.rs:67-87 | the condition is true iff some grant is true and every denial false |
| Abilities.ManageCoversEveryAction | crates/nestrs-authz/src/ability.rs:50-58 | the rules for an action are its own and the wildcard's, so the wildcard's grants and denials apply to every action |
| Abilities.Ability.AddRule | crates/nestrs-authz/src/ability.rs:44-46 | appends to the rules of the action and subject, keeping those there are |
| Abilities.Ability.CanClass | crates/nestrs-authz/src/ability.rs:63-65 | true iff some grant exists |
| Abilities.Ability.BuildCondition | crates/nestrs-authz/src/ability.rs:69-87 | the loop builds that condition |
| Abilities.Ability.Can | crates/nestrs-authz/src/ability.rs:91-102 | true iff some grant matches and no denial does, whatever the rule order |
| Abilities.Ability.PermittedFields | crates/nestrs-authz/src/ability.rs:143-158 | a field is permitted iff some matching grant is unrestricted or names it |
| Abilities.Ability.Mask | crates/nestrs-authz/src/ability.rs:109-120 | a field remains, unchanged, iff some matching grant is unrestricted or names it |
| Abilities.Ability.MaskMany | crates/nestrs-authz/src/ability.rs:125-139 | one body for each row that passes the instance check, in order, with exactly its permitted fields |
| Abilities.MaskedRowsExactly | crates/nestrs-authz/src/ability.rs:122-139 | the same of the specification, for every list of rows and bodies |
| Abilities.MaskDropsNoPrefilteredRow | crates/nestrs-authz/src/ability.rs:122-139 | the mask drops no row the pre-filter returned |
| Abilities.VariantDropsRow | crates/nestrs-authz/src/predicate.rs:53-56 | with a literal of another variant than its column the mask drops a row the pre-filter returned |
| Abilities.RuleSpec.constructor | crates/nestrs-authz/src/builder.rs:73-81 | a rule starts unconditional and unrestricted |
| Abilities.RuleSpec.When | crates/nestrs-authz/src/builder.rs:85-88 | replaces the row condition only |
| Abilities.RuleSpec.Fields | crates/nestrs-authz/src/builder.rs:92-95 | replaces the field restriction only |
| Abilities.RuleSpec.Drop | crates/nestrs-authz/src/builder.rs:103-117 | commits one rule whose condition is the lowering of its own predicate |
| Repository.ScopeExactly | crates/nestrs-orm/src/repo.rs:35-42 | the scope of any action is every row without an ability, and under one the rows that pass its instance check and on which NULL does not get in the way |
| Repository.Store.All | crates/nestrs-orm/src/repo.rs:63-69 | exactly the rows the caller may read, unchanged, as far as NULL does not get in the way; all of them without an ability |
| Repository.Store.FindById | crates/nestrs-orm/src/repo.rs:74-82 | the row of that key iff the caller may read it, with the same proviso; otherwise it reads as absent |
| Repository.Store.LoadFor | crates/nestrs-orm/src/service.rs:98-121 | found, denied or missing, by the instance check on the unscoped row |
| Repository.Store.Create | crates/nestrs-orm/src/service.rs:124-132 | inserts, or fails on an existing key |
| Repository.Store.Update | crates/nestrs-orm/src/repo.rs:97-108 | writes iff the row is there and the caller may update it, with the same proviso; otherwise changes nothing and reports it was not updated |
| Repository.Store.Delete | crates/nestrs-orm/src/service.rs:163-174 | deletes iff the row is there and the caller may delete it, with the same proviso; otherwise changes nothing and reports it was not found |
| Repository.WriteEffect | crates/nestrs-orm/src/repo.rs:91-127 | only the addressed row can change, cell by cell as asked, and the reply reports what is stored |
| Repository.WholeRunFrame | crates/nestrs-orm/src/repo.rs:97-127 | no run of service calls changes a row that began outside both write scopes |
| Repository.UpdateScopeAloneIsNotAFrame | crates/nestrs-orm/src/service.rs:134-174 | being outside the delete scope alone does not protect a row |
| Repository.LoadAndWriteAgree | crates/nestrs-orm/src/service.rs:98-174 | a write takes effect iff it addresses a row `access` finds and NULL does not get in the way, so without NULLs the two coincide; a refused write changes nothing |
| Repository.NoAbilityParts | crates/nestrs-orm/src/service.rs:110-112 | without an ambient ability every load is denied, whatever the action, every write of an existing row goes through and every lookup finds it |
| Repository.LoaderRevealsExistence | crates/nestrs-orm/src/service.rs:93-97 | the loader tells missing from denied, the scoped lookup reads both as absent, and what the lookup finds the loader finds |
| Pagination.Limit | crates/nestrs-orm/src/page.rs:45-47 | an absent page size means twenty, one out of range the nearer bound, one in range is kept, and clamping again changes nothing |
| Pagination.FetchPage | crates/nestrs-orm/src/page.rs:64-99 | the first rows after the cursor, ascending, at most the clamped limit, with a cursor iff more follow |
| Pagination.ServicePage | crates/nestrs-orm/src/service.rs:80-91 | a page of the caller's read scope; every row on it is stored and one the caller may read |
| Pagination.ServiceWalkExactly | crates/nestrs-orm/src/repo.rs:63-69 | a completed walk of those pages hands out exactly the rows the caller may read and on which NULL does not get in the way, ascending and each once |
| Pagination.PageIsUnique | crates/nestrs-orm/src/page.rs:60-99 | table, page size and cursor determine the page |
| Pagination.WalkIncreases | crates/nestrs-orm/src/page.rs:6-12 | whatever changes between fetches, emitted keys strictly increase |
| Pagination.PaginationUnderChange | crates/nestrs-orm/src/page.rs:6-12 | a row readable throughout a completed walk is emitted exactly once |
| Pagination.EmittedWasReadable | crates/nestrs-orm/src/page.rs:74-82 | every emitted row was readable, as emitted, when its page was fetched |
| Pagination.FixedTableComplete | crates/nestrs-orm/src/page.rs:60-99 | on a fixed table the pages concatenate to the readable rows, ascending, without gap or repeat |
| Pagination.WalkAll | crates/nestrs-orm/src/page.rs:10-12 | following the cursor from the start terminates for every page size, with exactly the readable rows, ascending by key, each once |
| Pagination.FullPages | crates/nestrs-orm/src/page.rs:80-84 | every page but the last holds exactly the clamped limit |
| Pagination.ReadIndependence | crates/nestrs-orm/src/repo.rs:62-82 | tables with the same readable rows give the same list, the same row for every key and the same walk at every page size |
| Pagination.SameWalk | crates/nestrs-orm/src/page.rs:64-99 | tables that agree on the read scope give the same completed walk, page by page |
| Transactions.StepKeepsInv | crates/nestrs-orm/src/interceptor.rs:30-82 | every step of any request keeps the invariant of all requests |
| Transactions.Atomicity | crates/nestrs-orm/src/interceptor.rs:30-96 | over every interleaving, a request by any method but GET, HEAD, OPTIONS and TRACE that answered with a response from 200 to 399 has persisted exactly the writes made through it; one that answered otherwise none, or, when its commit was sent and reported an error, all or none, and then it answered 500; one dropped unanswered all or none; one not yet reclaimed none |
| Transactions.CommittedUnanswered | crates/nestrs-orm/src/interceptor.rs:73-81 | a request dropped after its commit took effect has persisted its writes without answering |
| Transactions.ErrorAfterEffect | crates/nestrs-orm/src/interceptor.rs:73-77 | a commit that took effect and reported an error is answered with 500 and has persisted all writes |
| Transactions.NobodyElseAfterReclaim | crates/nestrs-orm/src/interceptor.rs:54-73 | between a successful unwrap and the commit nobody can write or clone; only commit, rollback or the loss of the request can follow |
| Transactions.AnswerIsFinal | crates/nestrs-orm/src/interceptor.rs:45-53 | no later step, of a leaked task included, persists more of a request that answered, or was dropped with no commit in flight |
| Transactions.AlwaysAnswerable | crates/nestrs-orm/src/interceptor.rs:30-82 | whatever it leaked, a request that has not ended can still come to an answer |
| Transactions.Droppable | crates/nestrs-orm/src/interceptor.rs:30-82 | it can be dropped wherever its code awaits, and in the handler that loses all its writes |
| Transactions.EscapeExactly | crates/nestrs-orm/src/interceptor.rs:54-71 | the unwrap fails iff a task still holds the executor, and then a response from 200 to 399 becomes a 500 and anything else is kept |
| Transactions.Transaction.RunWith | crates/nestrs-orm/src/interceptor.rs:45 | the handler runs with the executor installed, and what it spawned and did not end holds it afterwards |
| Transactions.TaskHeldExactly | crates/nestrs-orm/src/interceptor.rs:47-54 | a task holds the executor after the handler iff it was cloned to it and not dropped since |
| Transactions.Database.Intercept | crates/nestrs-orm/src/interceptor.rs:30-82 | the straight-line code: GET, HEAD, OPTIONS and TRACE write at once; any other request logs its writes iff the transaction opened, the handler's result is a response from 200 to 399, no task it spawned still holds the executor and the commit took effect; it answers success only then, and 500 when such a result is lost or the commit reports an error |
| Transactions.SoloRunAgrees | crates/nestrs-orm/src/interceptor.rs:30-82 | whatever the handler does with the executor, and also when the transaction does not open, that code follows a run of the transition system to the same answer and writes |
| Transactions.SafeRunAgrees | crates/nestrs-orm/src/interceptor.rs:31-33 | for GET, HEAD, OPTIONS and TRACE a run persists each write at once and answers as the handler did |
| Paths.JoinMeaning | crates/nestrs-http/src/transport.rs:24-33 | the slashes at the seam become one, with none added to an empty end, and a joined path is never empty |
| Paths.JoinAssociative | crates/nestrs-http/src/transport.rs:24-33 | joining is associative for all strings |
| Paths.VersionedRoute | crates/nestrs-http/src/transport.rs:35-48 | a versioned controller's route is the unversioned path behind its version segment; without a version the path is untouched |
| Paths.OpenApiDistributes | crates/nestrs-openapi/src/document.rs:126-135 | translating a joined path is joining the translated parts |
| Paths.ParametersMatchTemplate | crates/nestrs-openapi/src/document.rs:109-135 | the declared parameter names are the names scanned from the template's braces, in order, iff no literal segment has an opening brace with a closing one after it and no parameter name has a closing brace |
| Paths.BracesMisread | crates/nestrs-openapi/src/document.rs:109-135 | `a{b}` declares nothing and reads as one parameter; `:a}{b` declares one and reads as two |
| Paths.OpenApiInjective | crates/nestrs-openapi/src/document.rs:126-135 | different routes have different templates when no segment is itself written like one |
| Paths.LiteralTemplateCollides | crates/nestrs-openapi/src/document.rs:126-135 | a segment that is written like one collides with the parameter of that name |
| Paths.LiteralPathIsItsTemplate | crates/nestrs-openapi/src/document.rs:126-135 | a route without parameters is its own template |
| Paths.BuildPaths | crates/nestrs-openapi/src/document.rs:31-44 | every entry comes from a route served at the controller's path, behind its version if it has one; of the routes that share a template and a verb the last is documented; with distinct routes every one is, at that path |
| Layers.WrapLayer | crates/nestrs-http-macros/src/routes.rs:400-416 | wrapping in reverse leaves the first listed outermost |
| Layers.WrapLevel | crates/nestrs-http-macros/src/routes.rs:368-392 | interceptors inside guards inside filters |
| Layers.GuardsMeaning | crates/nestrs-middleware/src/guard.rs:74-79 | guards run in listed order up to the first denial, which is the answer |
| Layers.GuardOrder | crates/nestrs-http-macros/src/routes.rs:361-366 | guards are checked as listed, each once, and short of the end only for a denial |
| Layers.GuardsThread | crates/nestrs-middleware/src/guard.rs:74-79 | each guard receives the request as the one before it left it, and only the last one checked denies |
| Layers.FiltersMeaning | crates/nestrs-middleware/src/filter.rs:76-82 | an error reaches the last-listed filter and no other |
| Layers.InterceptorsMeaning | crates/nestrs-middleware/src/interceptor.rs:116-119 | interceptors nest, whether or not they call `next`: the inner endpoint runs exactly when all of them do |
| Layers.InterceptorsThread | crates/nestrs-middleware/src/interceptor.rs:116-119 | the request is handed on from one interceptor to the next, and the result comes back through the same ones, each with the request it was given |
| Layers.InterceptorOrder | crates/nestrs-http-macros/src/routes.rs:361-366 | they are entered in listed order, up to one that answers itself, and left in the opposite order |
| Layers.LevelMeaning | crates/nestrs-http-macros/src/controller.rs:102-114 | what one level does to a request, whatever it wraps and whatever its interceptors do |
| Layers.MountedMeaning | crates/nestrs-http-macros/src/routes.rs:353-392 | controller guards then route guards to the first denial; the handler runs iff none denies; a denial reaches no filter; an error fires one filter, at the innermost filtered level |
| Layers.WrapGlobal | crates/nestrs-http/src/transport.rs:205-225 | wrapping in listed order leaves the last listed outermost |
| Layers.Configure | crates/nestrs-http/src/transport.rs:205-225 | global filters inside guards inside discovered and explicit interceptors, each in reverse |
| Layers.GlobalMeaning | crates/nestrs-http/src/transport.rs:205-225 | global guards run last listed first and only the first-listed filter can fire |

## Left out

- Macro parsing and token emission: the model has what the emitted code does.
- Serving, TLS, CORS, request scopes, WebSocket, MCP, queues, JWT, configuration and GraphQL schemas: wrappers over libraries that are not part of this model.
- Comparisons the database refuses because the two types cannot be compared at all: the query then fails, and nothing is returned.
- An update that sets no column: the query library answers it without a write, and its code is not part of this model.
- Row reads return a set of rows, and no scope limits which rows `create` may insert, as in the code.
- JSON schemas, operation summaries and grouping of verbs by path: they would only add easy members.
- Hand-written modules and the inside of dynamic modules: a dynamic import adds configuration keys and factories and does not panic.
- Attribute-bound layers as injected keys: a descriptor's `injects` in `App` are the provider's own fields.
- Which violation is reported when there are several: some violation.
- Guards, filters, interceptors and handlers that fail to terminate, panic, or keep state between requests; the response shaper and the metadata values around a handler.
- Lifecycle hooks, discovery metadata, snapshots as separate objects and override warnings.
