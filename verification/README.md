# A Dafny model of Pyroduct

Pyroduct runs playbooks (compiled modules) inside a daemon, gives them a small common type language,
moves tabular data through them and keeps their builds in a cache. This project models the parts of
it whose correctness is not visible from one function body, and proves what they promise.

`dafny verify dfyconfig.toml` checks everything.

## What is modelled

**The type system.** `PyroSpec` holds `PyroType` and its coercion. `Coerced` is the specification of
`coerce_pyro_types`; the methods `CoercePyroTypes` and `CoerceGroups` run the source's own recursion
and its loop over `merged_map` against it. Coercion is partial (I8 and U8 do not coerce, though both
coerce with F64), and its equality shortcut keeps what its group arm throws away (field order,
nullability, documentation). `CoerceLaws` proves the algebra that survives this. `Inference` proves
that the type inferred from several values does not depend on their order, and `InferenceOrder` exactly
when success does not depend on it either. `SchemaInference` runs `infer_schema` over whole rows, with
its accumulators, missing keys and nulls, and `SchemaLaws` lifts both results to schemas. `Widening`
defines a supertype order without mentioning coercion and proves that coercion is its least upper
bound. The proofs use a completed coercion, in which numbers of different families meet at F64: a total
semilattice on each kind, of which the shipped one is a restriction (`SourceRefinesCompleted`).

`Arrow` is the translation to Arrow types and back, with the wrapping casts between `usize` and
`i32`, and `ArrowForms` says on Arrow's side alone which types are written and how the others are read.
`StructDoc` is the resolver that unfolds struct definitions, possibly cyclic, into types; its
stack `visited` is a mutable object, as in the source; `StructSpelling` says what each form of type
becomes, on its spelling. `Shipping` joins the three: types derived from
structs, coerced in any number and order, pass through Arrow with only their documentation lost.

**The playbook manager.** `Playbooks` is a state machine over the map of running workers and the two
database tables; every I/O step is answered by an environment. `start_playbook` and
`build_interconnect` call each other, and a launch that never bottoms out is `Diverges` for every
amount of fuel. `PlaybooksManager` is the manager as a class that updates the map and the tables in
place, each method proved equal to the state machine's operation. `PlaybookFrames`,
`PlaybookInvariants`, `PlaybookCallbacks` and `PlaybookLaunches` prove what runs of requests keep,
`PlaybookCycles` exactly when every start ends, `PlaybookReach` how far a start reaches, and
`PlaybookSuccess` when it succeeds. `StartupResume` is the retry loop at daemon start;
`StartupSuccess`, `StartupDeadEnds` and `StartupWitnesses` say when it brings up everything, when giving
up is right, and what happens otherwise.

**Row movers.** `Replay` is the bounded-concurrency replay as a transition system over its steps;
`ReplayLoops` holds both loops, the table of replays and the two ways to start one. `ChunkedFiles`
holds the CSV and JSONL writers with file rotation, on a disk whose operations may fail.

**Anonymous versions.** `AnonVersions` is the module directory store and the compile step with its
search for a version; `AnonAllocation` proves that it is a content-addressed allocator, and exactly
for which sources. `NamedCompiles` is about compiles under an author's own name and version.

## Where the code does less than it says

- `coerce_pyro_types` documents `None` as "incompatible" (line 375). It also returns `None` where a
  common supertype exists: exactly when numbers of two families meet somewhere inside the two types
  (`CoercionSucceedsIff`). So whether inference succeeds can depend on the order of the values
  (`OrderDecidesSuccess`), though its answer never does (`InferenceIsOrderIndependent`). Every order
  succeeds exactly if the types coerce two by two (`EveryOrderSucceedsIff`), and every order of the rows
  exactly if every two rows have a schema in both orders (`EveryRowOrderInfersIff`).
- A group with a repeated field name can coerce one way round and not the other
  (`RepeatedNamesBreakCommutativity`); the laws are about well-formed types.
- Fixed-list sizes beyond `i32` change on their way through Arrow (`RoundTripKeepsSizesIff`), and a
  list of dictionary-encoded primitives needs a second trip to settle (`AcceptedArrowStabilises`).
- Playbooks that need each other in a ring are launched without end when none of them runs yet
  (`RingDiverges`). Every start ends exactly if the interconnects have no cycle (`EveryStartEndsIff`).
- Two dependencies of the same package, or names with underscores, can want one name; then a start
  fails though nothing else does (`TwoVersionsFail`, `UntakenStartSucceeds`, `TellsApartIff`).
- A launch takes the name, the row and the callbacks of a recorded idle playbook that happens to be
  called as the launch wants (`OthersLoseOnly`, `LaunchTakesOver`).
- The order in which the table lists the playbooks decides which workers run after a restart, failures
  or not (`OrderDecidesWorkers`). It does not decide which playbooks run, once all that was listed does
  (`ListedRunningIsLeast`), and all of it does if nothing can fail (`PassResumesAll`).
- The startup loop takes a pass without success for a dead end. It is one, whatever fails, if the listed
  playbooks share no dependency that is not running and no name that a launch would take is recorded
  (`PassIsDeadEnd`). Otherwise a playbook can be left that would now come up, because another one's failed
  attempt launched what it lacked (`LaunchOnTheSideStrands`), or its own cleared a name
  (`CleanUpStrands`).
- A stopped playbook gets its callbacks back when resumed (`StopThenResumeRestores`) and loses them
  when started again (`StopThenStartForgetsCallbacks`), which is what an automatic update does.
- If reading the callback rows fails, the start or resume succeeds all the same, without them
  (`LaunchedMirrorsIff`). Workers and table agree over a run exactly if no launch had rows to read and
  failed to (`RunSyncedIff`).
- A stored source keeps its hash exactly if it has no Cargo dependencies and one entry per capability
  package (`HashSurvivesIff`). One with dependencies gets a new version at every complete compile
  (`DependentSourceAlwaysNew`).
- A cache hit can answer with the binary of another source. It takes a compile that leaves a binary
  beside a source it was not built from, and exactly two kinds do (`CompileKeepsBinariesMatchingIff`):
  one whose source has dependencies or a repeated capability package, if the binary's manifest is
  written too (`DependenciesServeAnotherBinary`), and one of a new source whose own write stops short,
  which is only logged, while its binary can be loaded (`FailedWritesServeAnotherBinary`). Without them
  every answer is honest (`RunAnswersHonestly`).
- Under an author's own name an answer always has the hash asked for (`NamedAnswer`), but its code can be
  of other content: exactly if a write stopped between code and spec where another's spec lay
  (`CompileKeepsCodeMatchingIff`).

## Model

| member | source | states |
|---|---|---|
| PyroSpec.CoercePyroTypes | lib/pyro-spec/src/lib.rs:376-464 | The source's case split computes the coercion that the laws below are about, for every pair of types, well-formed or not |
| PyroSpec.CoerceGroups | lib/pyro-spec/src/lib.rs:418-448 | The group arm's loop over both field lists, with its map and early return, computes the merge that `MergeIsPointwise` characterises |
| PyroSpec.CoercePrimitiveIsMaxOfComparable | lib/pyro-spec/src/lib.rs:466-502 | The numeric table returns the wider of two comparable primitives and fails on incomparable ones |
| CoerceLaws.MergeIsPointwise | lib/pyro-spec/src/lib.rs:418-448 | Merging a field list into a map succeeds exactly if the types agree name by name, and then joins them name by name |
| CoerceLaws.JoinGroups | lib/pyro-spec/src/lib.rs:418-448 | Two different groups coerce exactly if their shared fields do; the result is sorted by name, nullable and undocumented |
| CoerceLaws.Commutative | lib/pyro-spec/src/lib.rs:376-464 | On well-formed types the order of the two arguments does not matter, also where coercion fails |
| CoerceLaws.KeepsWellFormed | lib/pyro-spec/src/lib.rs:376-464 | Coercing well-formed types gives a well-formed type: no repeated names at any depth |
| CoerceLaws.Absorbing | lib/pyro-spec/src/lib.rs:376-464 | Coercing an input with the result gives the result again, despite the equality shortcut and the group normalisation |
| CoerceLaws.SourceRefinesCompleted | lib/pyro-spec/src/lib.rs:376-464 | Wherever the shipped coercion is defined, the completed one gives the same type |
| CoerceLaws.CoercionLaws | lib/pyro-spec/src/lib.rs:376-464 | The partial semilattice laws of the shipped coercion: idempotent, commutative, absorbing on both sides, closed under well-formedness |
| CoerceLaws.CoercionAssociates | lib/pyro-spec/src/lib.rs:376-464 | Where both bracketings of three types are defined they give the same type |
| CoerceLaws.RepeatedNamesBreakCommutativity | lib/pyro-spec/src/lib.rs:418-448 | Why names must be unique: two groups that coerce in one order only |
| SchemaInference.Observe | lib/pyroduct/src/format/value/schema.rs:237-266 | One observation: a null only marks the field nullable, anything else coerces the type so far, and an incompatible value is reported with both types |
| SchemaInference.InferSchema | lib/pyroduct/src/format/value/schema.rs:165-205 | The loops over rows, items and accumulators succeed exactly if every key's types coerce in the order met; the fields are then in key order, with the folded types, nullable exactly where a row lacks the key or holds a null; a failure names a key, its type so far and an observed type that do not coerce |
| Inference.InferenceIsOrderIndependent | lib/pyroduct/src/format/value/schema.rs:247-266 | If two orders of the types observed for a field both succeed, they infer the same type |
| SchemaLaws.SchemaIsOrderIndependent | lib/pyroduct/src/format/value/schema.rs:165-205 | If two orders of the same rows both have a schema, it is the same one, nullability included |
| Inference.OrderDecidesSuccess | lib/pyro-spec/src/lib.rs:466-502 | Success does depend on the order: I8, F64, U8 infer F64; I8, U8, F64 infer nothing |
| InferenceOrder.PairwiseTogether | lib/pyro-spec/src/lib.rs:376-464 | Three types that coerce two by two coerce together |
| InferenceOrder.EveryOrderSucceedsIff | lib/pyroduct/src/format/value/schema.rs:247-266 | Every order of a list of types infers one exactly if every two of them coerce |
| InferenceOrder.ThreeBlocks | lib/pyroduct/src/format/value/schema.rs:171-193 | Three rows' worth of types that go together two by two, in this order, go together |
| SchemaLaws.EveryRowOrderInfersIff | lib/pyroduct/src/format/value/schema.rs:165-205 | Every order of the rows has a schema exactly if every row by itself has one and every two rows have one in both orders, repeated keys included |
| SchemaLaws.PairwiseTypesInfer | lib/pyroduct/src/format/value/schema.rs:165-205 | Any two types of the same key coercing is enough for that, and needed if no row repeats a key |
| Widening.WideningComposes | lib/pyro-spec/src/lib.rs:376-464 | The widening order that coercion is compared with is transitive |
| Widening.CommonSupertypeIff | lib/pyro-spec/src/lib.rs:375-464 | A common supertype exists exactly if the completed coercion is defined |
| Widening.CoercionIsLeastUpperBound | lib/pyro-spec/src/lib.rs:375-464 | A successful coercion is a supertype of both inputs (absent fields nullable), and least up to the nullability of group fields |
| Widening.CoercionSucceedsIff | lib/pyro-spec/src/lib.rs:375-502 | Coercion succeeds exactly if a common supertype exists and no two numeric families meet inside the two types |
| Widening.InferenceIsLeastUpperBound | lib/pyroduct/src/format/value/schema.rs:247-266 | The type inferred for a field is the least type that every observed type widens to |
| SchemaLaws.InferredSchemaIsLeast | lib/pyroduct/src/format/value/schema.rs:165-205 | The inferred schema has every key once, with the least type its values widen to, nullable exactly where a row lacks it or holds a null |
| Arrow.SqueezedIff | lib/pyro-spec/src/arrow.rs:40-52 | Casting a size to i32 and back keeps it exactly if its upper 33 bits are equal, and doing it twice adds nothing |
| Arrow.RoundTrip | lib/pyro-spec/src/arrow.rs:20-171 | For every type, sizes of any width included, the way to Arrow and back succeeds and gives the normal form: lists of scalars flat, documentation gone, sizes squeezed |
| Arrow.RoundTripKeepsSizesIff | lib/pyro-spec/src/arrow.rs:20-171 | It keeps the sizes exactly if every fixed-list size in the type fits |
| Arrow.RoundTripIdempotent | lib/pyro-spec/src/arrow.rs:20-171 | A second round trip changes nothing, whatever the sizes |
| Arrow.SchemaRoundTrip | lib/pyro-spec/src/arrow.rs:222-282 | The same for fields and schemas: names, order and nullability survive, the schema's documentation does not |
| Arrow.AcceptedArrowStabilises | lib/pyro-spec/src/arrow.rs:80-171 | A type read from any Arrow type, negative sizes included, is settled after one more trip, and at once exactly if no list holds dictionary-encoded primitives |
| Arrow.PassesThroughIff | lib/pyro-spec/src/arrow.rs:20-171 | A type comes back unchanged up to documentation exactly if it has no list of scalars and its sizes fit |
| ArrowForms.PrimitivesKeepFamilyAndWidth | lib/pyro-spec/src/arrow.rs:180-195 | A primitive is written as the Arrow type of its own family and width in bits |
| ArrowForms.NumbersReadAsPrimitives | lib/pyro-spec/src/arrow.rs:199-216 | And every fixed-width Arrow type is read as the primitive of its family and width |
| ArrowForms.WritesCanonical | lib/pyro-spec/src/arrow.rs:20-73 | Every type is written in one form: timestamps in nanoseconds without a zone, no large, binary, date, time or dictionary types, items called "item" and nullable where primitive in fixed lists, maps unsorted with the names and nullabilities of entries, key and value |
| ArrowForms.CanonicalIsWritten | lib/pyro-spec/src/arrow.rs:20-171 | Every type of that form is read, and writing what was read gives it back but for the nullability of primitive items |
| ArrowForms.CanonicalIsUnique | lib/pyro-spec/src/arrow.rs:20-73 | A type of that form that reads back as the round trip of t is what t is written as, up to the same |
| ArrowForms.ItemNullabilityIsWritten | lib/pyro-spec/src/arrow.rs:38-50 | And that nullability is written as the list says, primitive lists being nullable |
| ArrowForms.BinaryReadsAsBytes | lib/pyro-spec/src/arrow.rs:104-110 | Binary types read as lists of bytes, fixed ones with their size |
| ArrowForms.TimesReadAsTimestamps | lib/pyro-spec/src/arrow.rs:113-117 | Dates and times of any unit and zone read as timestamps |
| ArrowForms.LargeReadsAsSmall | lib/pyro-spec/src/arrow.rs:97-137 | Large strings and lists read as small ones, and fixed lists of anything but primitives as lists |
| ArrowForms.WrappersAreTransparent | lib/pyro-spec/src/arrow.rs:147-166 | Dictionaries read as their values, and whether a map is sorted is forgotten |
| ArrowForms.ReadableIff | lib/pyro-spec/src/arrow.rs:80-171 | Reading fails exactly where an interval, a duration, an unknown type or a map not of pairs occurs |
| StructDoc.SchemaBuilder.ResolveTypeInner | lib/pyro-macro/src/struct_doc.rs:169-290 | Pushing and popping on the shared stack leaves it as found; the result is the resolution function; it ends on every registry, cyclic ones included |
| StructDoc.SchemaBuilder.ResolveFieldsInner | lib/pyro-macro/src/struct_doc.rs:145-164 | The loop over fields leaves the stack as found and resolves each field in order, nullable exactly if an Option |
| StructDoc.SchemaBuilder.SchemaFor | lib/pyro-macro/src/struct_doc.rs:121-130 | A schema for exactly the registered structs, resolved from an empty stack |
| StructDoc.SchemaBuilder.WithForeignSpecs | lib/pyro-macro/src/struct_doc.rs:75-85 | The nested loops overlay the interface specs in order, which `LastSpecWins` reads |
| StructDoc.LastSpecWins | lib/pyro-macro/src/struct_doc.rs:75-85 | A foreign struct named by several specs has the schema of the last one |
| StructDoc.ResolveIsUnfold | lib/pyro-macro/src/struct_doc.rs:169-290 | On an acyclic registry the stack makes no difference: the result is the unguarded full expansion |
| StructDoc.StackedDefinitionsUnused | lib/pyro-macro/src/struct_doc.rs:245-262 | Redefining the structs on the stack in any way does not change the result, so no path expands a struct twice |
| StructDoc.ExpansionIsBounded | lib/pyro-macro/src/struct_doc.rs:245-283 | Struct nesting of a resolved type never exceeds the number of structs not on the stack plus that of the foreign schemas |
| StructDoc.ResolvedIsShippable | lib/pyro-macro/src/struct_doc.rs:169-290 | Given distinct local field names and sound foreign schemas, every resolved type is well-formed, has no list of scalars and fits Arrow |
| StructDoc.DerivedSchemaPassesThroughArrow | lib/pyro-macro/src/struct_doc.rs:121-164 | So a schema derived from a struct comes back from Arrow unchanged up to documentation |
| StructSpelling.FixedNames | lib/pyro-macro/src/struct_doc.rs:181-202 | A path that ends in the name of a primitive, spelled from its family and width, resolves to it on every registry and stack; likewise strings, bytes and date-times |
| StructSpelling.ListsAndOptions | lib/pyro-macro/src/struct_doc.rs:204-221 | Vectors become lists of non-nullable elements, flat if primitive; options and references become what they wrap |
| StructSpelling.MapsAndResults | lib/pyro-macro/src/struct_doc.rs:223-243 | Both map types take key and value in order, results the first argument |
| StructSpelling.NothingToResolve | lib/pyro-macro/src/struct_doc.rs:169-174 | Missing arguments, empty paths, tuples and other syntax become Null |
| StructSpelling.StructsUnfold | lib/pyro-macro/src/struct_doc.rs:249-270 | A registered struct, by its name or as its reference type, becomes the group of its fields in order with names, documentation and types resolved one level deeper, nullable exactly if the last segment is Option; on the stack it becomes an empty group |
| StructSpelling.OthersAreForeign | lib/pyro-macro/src/struct_doc.rs:271-289 | Other names become the foreign struct of their base name, or an empty group |
| Shipping.CoercionKeepsShippable | lib/pyro-spec/src/lib.rs:376-464 | Coercion of types that Arrow carries exactly gives one that Arrow carries exactly |
| Shipping.InferredFromStructsPassesThroughArrow | lib/pyro-spec/src/arrow.rs:20-171 | Any number of struct types, inferred together, pass through Arrow unchanged up to documentation |
| PlaybookFrames.StartFrames | lib/pyro-daemon/src/playbook/manager.rs:438-587 | A start, successful or failed, with all it launches, touches nothing that was running and only names, rows and callbacks under its own name; success inserts where nothing ran |
| PlaybookFrames.BuildFrames | lib/pyro-daemon/src/playbook/interconnect.rs:61-130 | Building an interconnect touches only names that strictly extend the parent's, so never the enclosing start's worker or row |
| PlaybookFrames.ResumeFrames | lib/pyro-daemon/src/playbook/manager.rs:604-661 | The same for a resume; a failed one leaves the playbook's own row alone |
| PlaybookInvariants.StartKeepsConsistent | lib/pyro-daemon/src/playbook/manager.rs:438-587 | Across a start, its launches and its failures, every worker has a row with status running and its own configuration and socket |
| PlaybookInvariants.RunKeepsConsistent | lib/pyro-daemon/src/playbook/manager.rs:438-888 | The same over every serialised run of start, stop, resume, delete, HTTP and callback requests, each with its own failures |
| PlaybookInvariants.StartKeepsClosed | lib/pyro-daemon/src/playbook/manager.rs:438-587 | If all dependencies of running workers run, they do after any start, successful or failed |
| PlaybookInvariants.ResumeKeepsClosed | lib/pyro-daemon/src/playbook/manager.rs:604-661 | The same after any resume |
| PlaybookInvariants.BuildBindsEveryDependency | lib/pyro-daemon/src/playbook/interconnect.rs:61-130 | A successful build binds exactly the spec's names, each to a running server of the expected ident |
| PlaybookInvariants.StartedAsAsked | lib/pyro-daemon/src/playbook/manager.rs:495-587 | A successful start leaves a worker for the playbook asked for, with bound dependencies, and a row that records the request (four workers by default) |
| PlaybookInvariants.ResumedAsRecorded | lib/pyro-daemon/src/playbook/manager.rs:604-661 | A successful resume leaves the worker that the row describes, with exactly the spec's names each bound to a running server of the expected ident, and the row as it was but for its status |
| PlaybookInvariants.StartNeedsItsSteps | lib/pyro-daemon/src/playbook/manager.rs:450-584 | A start succeeds only if each of its own steps did: clearing a known name, directories, loading, validation, the worker, each listener asked for, the row |
| PlaybookInvariants.ResumeNeedsItsSteps | lib/pyro-daemon/src/playbook/manager.rs:604-661 | A resume likewise: reading the row, loading, the worker, each recorded listener, the status |
| PlaybookInvariants.OthersPlainlyLaunched | lib/pyro-daemon/src/playbook/interconnect.rs:97-108 | Everything launched for another playbook has no listeners, no pinned version and four workers |
| PlaybookInvariants.RequestsDoTheirWork | lib/pyro-daemon/src/playbook/manager.rs:161-436 | Each request does its own work on the state, and none stops or replaces another playbook's worker |
| PlaybookInvariants.LaunchRequestsLaunch | lib/pyro-daemon/src/playbook/manager.rs:161-436 | A start or resume that succeeds does so as a request: its worker runs afterwards |
| PlaybookInvariants.FailureLeavesNoWorker | lib/pyro-daemon/src/playbook/manager.rs:438-661 | A failed start or resume leaves no worker under its name |
| PlaybookInvariants.HttpAgreesIff | lib/pyro-daemon/src/playbook/manager.rs:663-674 | Worker and row agree on the HTTP address afterwards exactly if the request succeeded or the row already held what the worker is left with; nothing else changes |
| PlaybookInvariants.StopParks | lib/pyro-daemon/src/playbook/manager.rs:589-602 | Stopping removes one worker and keeps every row but for that playbook's status, which says stopped exactly if the request says so |
| PlaybookInvariants.DeleteErases | lib/pyro-daemon/src/playbook/manager.rs:676-695 | Deleting removes one worker and its row and no other; its callback rows stay behind exactly if their unchecked deletion failed |
| PlaybookCallbacks.HandleSyncedIff | lib/pyro-daemon/src/playbook/manager.rs:438-951 | From a state in which every worker's HTTP and playbook callbacks are exactly the rows of its source, with its socket callbacks among them, a request leads to such a state exactly if each playbook it launches has its rows read or none but socket rows |
| PlaybookCallbacks.RunSyncedIff | lib/pyro-daemon/src/playbook/manager.rs:438-951 | Over any serialised run, failures included, workers and table agree all along exactly if that holds of every launch |
| PlaybookCallbacks.LaunchedMirrorsIff | lib/pyro-daemon/src/playbook/manager.rs:604-661 | A resumed worker mirrors its rows exactly if they were read or there were none but socket ones before the request; a started one also if the name was known and its rows were deleted: both callers ignore a failed registration |
| PlaybookCallbacks.LaunchedHoldsIff | lib/pyro-daemon/src/playbook/manager.rs:915-951 | A launched worker holds exactly the rows of its source whose target could be reached, if they were read |
| PlaybookCallbacks.AddSucceedsIff | lib/pyro-daemon/src/playbook/manager.rs:803-863 | Adding a callback succeeds exactly if its row can be stored and, for a socket of a running source, its target reached; then the running source holds it |
| PlaybookCallbacks.RunKeepsSynced | lib/pyro-daemon/src/playbook/manager.rs:438-951 | Workers and table agree after any run in which callback rows can be read |
| PlaybookCallbacks.StartOfKnownNameDropsCallbacks | lib/pyro-daemon/src/playbook/manager.rs:450-470 | Starting a name that has a row leaves it without callbacks, in the table and in the worker |
| PlaybookCallbacks.StopThenResumeRestores | lib/pyro-daemon/src/playbook/manager.rs:589-661 | Resume undoes stop: same tables, same other workers, same spec, configuration and sockets, its dependencies bound again, at least the same callbacks |
| PlaybookCallbacks.StopThenStartForgetsCallbacks | lib/pyro-daemon/src/playbook/manager.rs:1310-1340 | Stop followed by start does not: the callbacks are gone |
| PlaybookCallbacks.AddedCallbackIsTheOnlyChange | lib/pyro-daemon/src/playbook/manager.rs:803-863 | An accepted callback's row is kept in any case; the request succeeds exactly if its source, when running, holds the callback too; nothing else changes |
| PlaybookCallbacks.DeleteUndoesAdd | lib/pyro-daemon/src/playbook/manager.rs:803-888 | Deleting a callback just added restores workers and tables, whether or not its source runs and its socket answered |
| PlaybookLaunches.StartLaunchesOnce | lib/pyro-daemon/src/playbook/interconnect.rs:76-128 | On an acyclic catalog, the workers one start launches run distinct playbooks, none of which ran before, all below the one started |
| PlaybookLaunches.StartTerminates | lib/pyro-daemon/src/playbook/interconnect.rs:61-130 | Every start ends on an acyclic catalog |
| PlaybookLaunches.ResumeEnds | lib/pyro-daemon/src/playbook/manager.rs:604-661 | So does every resume |
| PlaybookLaunches.FuelIrrelevant | lib/pyro-daemon/src/playbook/manager.rs:438-587 | A start that ends has one outcome, whatever the fuel |
| PlaybookCycles.RingDiverges | lib/pyro-daemon/src/playbook/interconnect.rs:93-116 | With no failures, if none of a set of playbooks runs and each needs another one of the set before anything else that is not running, starting any of them never returns |
| PlaybookCycles.EveryStartEndsIff | lib/pyro-daemon/src/playbook/interconnect.rs:61-130 | Every start ends, in all states, environments and names, exactly if the catalog is acyclic |
| PlaybookCycles.EveryConsistentStartEndsIff | lib/pyro-daemon/src/playbook/interconnect.rs:61-130 | The same from consistent states only, if everything needed is stored |
| PlaybookReach.StartTouches | lib/pyro-daemon/src/playbook/manager.rs:438-587 | Whatever fails, a start brings up only playbooks along dependency chains, each under the name of its chain; only rows and callbacks of such names change, only of idle ones, and every changed row is of a playbook that came up |
| PlaybookReach.ResumeTouches | lib/pyro-daemon/src/playbook/manager.rs:604-661 | The same of a resume |
| PlaybookReach.OthersLoseOnly | lib/pyro-daemon/src/playbook/manager.rs:458-463 | A start keeps the row and callbacks of every other playbook that runs or is not called like something the start may launch |
| PlaybookReach.LaunchTakesOver | lib/pyro-daemon/src/playbook/interconnect.rs:93-116 | An idle playbook recorded under the name a launch wants loses its callbacks and its row to the dependency |
| PlaybookSuccess.UntakenStartSucceeds | lib/pyro-daemon/src/playbook/interconnect.rs:93-116 | With no failure, everything needed stored and no cycle, a start under an untaken name succeeds in every state unless two of its launches want one name |
| PlaybookSuccess.TellsApartIff | lib/pyro-daemon/src/playbook/interconnect.rs:94 | If no package name has an underscore, no two launches ever want one name exactly if no playbook needs two playbooks of one package |
| PlaybookSuccess.TwoVersionsFail | lib/pyro-daemon/src/playbook/interconnect.rs:93-116 | A playbook that needs two versions of one package, neither running, fails to start though nothing else fails |
| PlaybooksManager.Manager.constructor | lib/pyro-daemon/src/playbook/manager.rs:149-159 | A new daemon has no workers and satisfies all three invariants, whatever the tables hold |
| PlaybooksManager.Manager.StartPlaybook | lib/pyro-daemon/src/playbook/manager.rs:438-587 | The in-place start, with its recursive launches, leaves the state and answer that the theorems are about |
| PlaybooksManager.Manager.BuildInterconnect | lib/pyro-daemon/src/playbook/interconnect.rs:61-130 | The loop over the spec, which stops at the first failure and leaves earlier launches running, computes the recursive build |
| PlaybooksManager.Manager.StopPlaybook | lib/pyro-daemon/src/playbook/manager.rs:589-602 | The in-place stop, including a failed status update after the worker is gone |
| PlaybooksManager.Manager.ResumePlaybook | lib/pyro-daemon/src/playbook/manager.rs:604-661 | The in-place resume, including the check that no nested launch took the name |
| PlaybooksManager.Manager.DeletePlaybook | lib/pyro-daemon/src/playbook/manager.rs:676-695 | The in-place delete, step by step through its possible failures |
| PlaybooksManager.Manager.SetHttpAddress | lib/pyro-daemon/src/playbook/worker.rs:133-158 | The in-place rebinding, in which a failed bind leaves the worker without an address |
| PlaybooksManager.Manager.HandleRequest | lib/pyro-daemon/src/playbook/manager.rs:161-436 | The dispatch of the requests that change the state performs the step that runs are made of |
| PlaybooksManager.Manager.RegisterCallbacks | lib/pyro-daemon/src/playbook/manager.rs:915-951 | The loop over the rows, in any order, gives a worker exactly the callbacks of its source whose target can be reached |
| PlaybooksManager.Manager.AddCallbackMapping | lib/pyro-daemon/src/playbook/manager.rs:803-863 | Row first, then the worker, if one runs and the target connects |
| PlaybooksManager.Manager.DeleteCallbackMapping | lib/pyro-daemon/src/playbook/manager.rs:879-888 | Row first, then the loop that makes every worker forget the uuid |
| PlaybooksManager.Manager.ResumeActivePlaybooks | lib/pyro-daemon/src/playbook/manager.rs:753-801 | The startup loop on the real state, each playbook with an environment of its own: it keeps the invariants and all running workers and loses no listed name; what runs is never more than what ran or was listed and what that needs, and exactly that once all that was listed runs, which it does if nothing can fail; what is left would be refused again if the listed playbooks are independent; if no missing dependency can be started, the workers are the least set with nothing left to resume |
| PlaybooksManager.Manager.ResumePass | lib/pyro-daemon/src/playbook/manager.rs:765-793 | One pass performs the attempts in order and leaves the state and the failed names of the pass function |
| StartupDeadEnds.PassIsDeadEnd | lib/pyro-daemon/src/playbook/manager.rs:765-797 | Whatever fails, after a pass without success every name would be refused again, if whatever two idle listed playbooks both need runs before the pass and no name that a launch for one would take is recorded and idle |
| StartupDeadEnds.StartFailsAgain | lib/pyro-daemon/src/playbook/manager.rs:438-587 | A failed start fails again in any later state in which nothing it needs has come up since, launches it left running included |
| StartupWitnesses.LaunchOnTheSideStrands | lib/pyro-daemon/src/playbook/manager.rs:794-797 | Sharing a dependency that is not running: a failed resume launches what an earlier one lacked, the pass counts as a dead end, and the earlier playbook would now come up |
| StartupWitnesses.CleanUpStrands | lib/pyro-daemon/src/playbook/manager.rs:458-463 | A recorded launch name: a lone resume fails after deleting that row, the pass counts as a dead end, and a second attempt would succeed |
| StartupWitnesses.OrderDecidesWorkers | lib/pyro-daemon/src/playbook/manager.rs:753-801 | With no failure at all, listing a playbook before the one that runs its dependency leaves one more worker than the other order |
| StartupResume.ListedRunningIsLeast | lib/pyro-daemon/src/playbook/manager.rs:753-801 | Whatever the order, once all that was listed runs, the running playbooks are the least set closed under interconnects that holds those running before and those listed |
| PlaybookReach.LeastClosedUnique | lib/pyro-daemon/src/playbook/manager.rs:753-801 | There is only one such set, so two orders of the listing that both get all of it running have the same playbooks running |
| StartupSuccess.PassResumesAll | lib/pyro-daemon/src/playbook/manager.rs:769-786 | If no I/O fails, everything listed or needed is stored, nothing is cyclic and no name is wanted for two playbooks, one pass in any order has every listed name running its playbook |
| StartupResume.ResumeActive | lib/pyro-daemon/src/playbook/manager.rs:753-801 | The pass scheduler by itself, for any attempt condition monotone in the running set whose failures change nothing: it reaches the least fixpoint, stops only when nothing can be resumed, and the bound on passes never cuts it short |
| StartupResume.ListingOrderIrrelevant | lib/pyro-daemon/src/playbook/manager.rs:753-801 | For such attempts, so where no dependency is launched, what ends up running does not depend on the order of the listing |
| StartupResume.ResumeIsAnAttempt | lib/pyro-daemon/src/playbook/manager.rs:604-661 | If none of the dependencies that are missing can be started (unreadable row, not stored, not loadable), a resume succeeds exactly if the playbook's own steps do and its dependencies run; success adds one name, failure changes nothing |
| Replay.ReachableStates | lib/pyro-daemon/src/data/replay.rs:391-493 | In every reachable state: in flight at most the bound; completed is successes plus errors; dispatched is completed plus panicked plus in flight; counters match the outcomes of the tasks joined |
| Replay.ReplayEnds | lib/pyro-daemon/src/data/replay.rs:391-493 | Every step comes closer to the end, and only finished or failed replays have no step left, so the capacity wait ends |
| Replay.ZeroConcurrencyStalls | lib/pyro-daemon/src/data/replay.rs:227 | Why the concurrency is raised to at least one: with zero the first row waits for ever |
| Replay.ParallelRefinesSequential | lib/pyro-daemon/src/data/replay.rs:391-493 | For any completion order, an uncancelled parallel replay without panics ends with the counts of the sequential one |
| Replay.CancelLeavesNothingInFlight | lib/pyro-daemon/src/data/replay.rs:411-490 | Cancelled or not, a finished replay has joined every task it dispatched |
| ReplayLoops.LoadFolder | lib/pyro-daemon/src/data/replay.rs:83-132 | Reading and counting by file and batch gives the rows in replay order and their number, and refuses exactly a folder that cannot be listed, holds an unreadable file, or holds no rows |
| ReplayLoops.RowAt | lib/pyro-daemon/src/data/replay.rs:411-440 | The row at file, batch and index is the next one in replay order, after exactly those before it |
| ReplayLoops.RunReplayLoop | lib/pyro-daemon/src/data/replay.rs:305-388 | The sequential loop calls each row once in order, stops at the first cancel or unrepairable row and nowhere else, and counts what it did |
| ReplayLoops.JoinNext | lib/pyro-daemon/src/data/replay.rs:420-465 | Joining one task is a step of the transition system and shows in the status |
| ReplayLoops.DispatchRow | lib/pyro-daemon/src/data/replay.rs:411-475 | One turn of the parallel loop: cancel drains everything, a full set waits, and otherwise exactly this row is dispatched |
| ReplayLoops.RunReplayParallel | lib/pyro-daemon/src/data/replay.rs:391-493 | The parallel loop performs a run of the transition system over the rows in file, batch, index order, and the status shows its last state |
| ReplayLoops.ReplayTable.Prepare | lib/pyro-daemon/src/data/replay.rs:39-158 | Refuses exactly a replay already running, a playbook that is not running or has sessions, and a folder LoadFolder refuses, changing nothing; otherwise registers a fresh status and never displaces a running one |
| ReplayLoops.ReplayTable.StartReplay | lib/pyro-daemon/src/data/replay.rs:161-217 | From request to end: an uninterrupted sequential replay completes exactly the total it answered with, with one success per accepted row |
| ReplayLoops.ReplayTable.StartParallelReplay | lib/pyro-daemon/src/data/replay.rs:220-284 | The same promise in parallel, for any concurrency, zero included |
| ReplayLoops.ReplayTable.CleanUp | lib/pyro-daemon/src/data/replay.rs:196-206 | The delayed clean-up removes the finished replay's handle and never a running one's |
| ChunkedFiles.ChunkPathsDistinct | lib/pyro-file/src/lib.rs:113-127 | Chunks of one base path never share a path |
| ChunkedFiles.ChunkPathSpelled | lib/pyro-file/src/lib.rs:113-127 | The i-th chunk lies in the base path's directory and has "_part_" and i before the extension, or at the end if there is none |
| ChunkedFiles.WriteCsv | lib/pyro-file/src/lib.rs:159-224 | The files hold the rows in order, all full but the last, under the paths returned; failed I/O leaves a prefix on disk; chunk size zero is refused; nothing else fails; file index, chunk rows and offset stay in usize if the number of rows does |
| ChunkedFiles.WriteJsonl | lib/pyro-file/src/lib.rs:230-300 | The same, and after success every writer was finished exactly once |
| ChunkedFiles.ChunkingUnique | lib/pyro-file/src/lib.rs:159-300 | There is only one way to cut rows into such chunks |
| ChunkedFiles.ChunkedWriteFacts | lib/pyro-file/src/lib.rs:159-300 | A successful write makes ceil(rows / chunk size) files, never more than rows, at distinct paths |
| ChunkedFiles.ChunkedPathsSpelled | lib/pyro-file/src/lib.rs:159-300 | So the files of a successful chunked write are named literally, in the order of the rows |
| Decimal.NumeralReadsBack | lib/pyro-file/src/lib.rs:113-127 | Numbers in names are written in decimal digits without a leading zero, and read back as the number |
| Prelude.BeforeIsLexicographic | lib/pyro-spec/src/lib.rs:418-448 | Keys of sorted maps are in lexicographic order of their characters |
| ChunkedFiles.WritersAgree | lib/pyro-file/src/lib.rs:159-300 | CSV and JSONL split the same batches identically, under the same paths |
| ChunkedFiles.UnchunkedWriteFacts | lib/pyro-file/src/lib.rs:159-300 | Without a chunk size there is one file at the base path, and none for no rows |
| AnonVersions.Cache.Compile | lib/pyro-artifacts/src/build.rs:212-466 | The compile step, early returns, search and both saves, changes the store as the allocation theorems assume |
| AnonVersions.Cache.SearchVersions | lib/pyro-artifacts/src/build.rs:221-246 | The unbounded loop ends, at the first version that is unreadable or holds the hash |
| AnonVersions.Cache.WriteSource | lib/pyro-artifacts/src/artifacts.rs:777-795 | Writing a source replaces manifest and then code of its directory, up to the file that fails, and keeps any binary there |
| AnonVersions.Cache.WriteBinary | lib/pyro-artifacts/src/artifacts.rs:1039-1095 | Writing a binary replaces code, spec and last the manifest beside the source, up to the file that fails, with capabilities keyed by package and no dependencies |
| AnonVersions.VersionsFit | lib/pyro-artifacts/src/build.rs:223-246 | Readable versions are at most as many as directories, which is why the search ends |
| AnonAllocation.HashSurvivesIff | lib/pyro-artifacts/src/artifacts.rs:152-200 | A saved source reads back with the hash it was compiled under exactly if it has no dependencies and one entry per capability package |
| AnonAllocation.ByPackageKeepsIdentsIff | lib/pyro-artifacts/src/artifacts.rs:1053-1060 | Keying capabilities by package loses none exactly if their packages are distinct |
| AnonAllocation.SearchOnContiguous | lib/pyro-artifacts/src/build.rs:223-246 | Over versions 1 to n, the search finds a version holding the hash, or n + 1 if there is none |
| AnonAllocation.CompileKeepsContiguous | lib/pyro-artifacts/src/build.rs:212-466 | Occupied versions stay 1 to n, growing by one exactly when a new source is built and saved |
| AnonAllocation.CompileKeepsHashesDistinct | lib/pyro-artifacts/src/build.rs:212-466 | No two versions come to hold the same hash |
| AnonAllocation.SavedSource | lib/pyro-artifacts/src/build.rs:440-462 | What reads back after a save, wherever the two writes stop: whether it is readable, and under which hash |
| AnonAllocation.SavedBinary | lib/pyro-artifacts/src/build.rs:440-462 | Which binary loads after a save, wherever its write stops |
| AnonAllocation.RunKeepsAllocation | lib/pyro-artifacts/src/build.rs:212-466 | Over every serialised run of clean compiles, failed builds and failed writes included, versions stay contiguous with distinct hashes and no stored source loses its version |
| AnonAllocation.RunThenCompileVersion | lib/pyro-artifacts/src/build.rs:212-276 | After any such run from an empty cache, a known hash gets its old version back and a new one gets n + 1 |
| AnonAllocation.VersionIsForGood | lib/pyro-artifacts/src/build.rs:212-276 | Once a clean source has been built and saved, every later compile of the same content that answers does so with the same version, whatever happened before and in between |
| AnonAllocation.CompileVersion | lib/pyro-artifacts/src/build.rs:221-276 | One compile of an allocated store: a known hash gets its old version back, a new one gets n + 1 |
| AnonAllocation.CompileTwice | lib/pyro-artifacts/src/build.rs:248-276 | Compiling the same source again hits the cache, changes nothing and answers with the same version |
| AnonAllocation.DependentSourceAlwaysNew | lib/pyro-artifacts/src/artifacts.rs:1053-1075 | A source with Cargo dependencies never finds itself again |
| AnonAllocation.CompileKeepsBinariesMatchingIff | lib/pyro-artifacts/src/build.rs:440-462 | From a contiguous store in which every binary lies beside its own source, a compile of any source keeps that exactly if it does not leave a loadable binary for a new source whose own write stops short, nor write the binary's manifest for an unclean source |
| AnonAllocation.AnswersHonestlyIff | lib/pyro-artifacts/src/build.rs:221-276 | On any contiguous store, every next answer is a binary of the source asked for exactly if no version that is the first to hold its hash has a foreign binary |
| AnonAllocation.RunAnswersHonestly | lib/pyro-artifacts/src/build.rs:212-466 | Over any serialised run without such a save, every next answer is honest |
| AnonAllocation.CleanRunsHaveNoMismatch | lib/pyro-artifacts/src/build.rs:449-462 | Clean sources, none of whose own write stops short while its binary can be loaded, make such a run, failed builds or not |
| AnonAllocation.DependenciesServeAnotherBinary | lib/pyro-artifacts/src/artifacts.rs:1053-1075 | With no failure at all: after a source with Cargo dependencies, the same code without them gets the binary built with them |
| AnonAllocation.FailedWritesServeAnotherBinary | lib/pyro-artifacts/src/build.rs:449-462 | Two failed writes, which are only logged, can make a compile answer with another source's binary |
| NamedCompiles.NamedAnswer | lib/pyro-artifacts/src/build.rs:248-262 | On any store and whatever fails, an answer under an author's own name has the hash asked for and the version of the ident; it comes from the cache exactly if the binary stored there has that hash, and fails exactly if it does not and the build does |
| NamedCompiles.NamedCompileTwice | lib/pyro-artifacts/src/build.rs:248-262 | After a compile without failure, the next one of the same content is a hit |
| NamedCompiles.NamedHitLasts | lib/pyro-artifacts/src/build.rs:248-262 | Over runs too, until other content is compiled under that ident |
| NamedCompiles.CompileKeepsCodeMatchingIff | lib/pyro-artifacts/src/artifacts.rs:1039-1051 | Every stored binary keeps the code its spec names exactly if the compile does not stop writing between code and spec where a spec of other content lies |
| NamedCompiles.AnonPackageRefused | lib/pyro-artifacts/src/build.rs:215-219 | A package called "anon" is refused and changes nothing |
| NamedCompiles.SameContentIff | lib/pyro-artifacts/src/artifacts.rs:152-200 | Two sources have the same hash exactly if code, dependencies and interconnect are equal and every capability occurs equally often, however configured |
| NamedCompiles.AnonVersionSpelled | lib/pyro-artifacts/src/build.rs:223-246 | The n-th anonymous version is "0.n.0" in decimal |
| AnonAllocation.ByPackageKeepsLast | lib/pyro-artifacts/src/artifacts.rs:1053-1060 | Of several entries of a package the last is kept, configuration included |
| AnonAllocation.SavedReadsBack | lib/pyro-artifacts/src/build.rs:440-462 | A source built by the constructor and saved without failure reads back as it was, with its version and without its dependencies |
| AnonAllocation.NewCapabilities | lib/pyro-artifacts/src/artifacts.rs:202-261 | Sources built by the constructor never repeat a capability package, and a configuration wins over a bare declaration |

## Left out

- Sockets, HTTP, processes, SQLite, archives, cargo and WASM: each operation is only a success or a failure, chosen by an environment the theorems quantify over.
- Logging and tracing; directories and `config.toml` contents; of a playbook's configuration only its ident and its number of workers are kept.
- Interleaved manager requests and concurrent starts of replays: the checks and the later inserts take the locks separately in the source, and the model serialises requests. The concurrency of replay tasks is modelled.
- Order of hash-map scans: which of several workers of a playbook is bound first is the environment's choice.
- A worker's list of callbacks: a map by uuid, since the uuid is the table's key; the three kinds the interface can write; a running worker always accepts a callback.
- Catalog: a cached binary's ident is taken to be the one it is stored under, wherever a lemma says `CatalogValid`.
- Configuration overrides in a start request: validated only, because the worker loads the playbook from the cache again and they have no further effect.
- Listing, calls, bulk calls, sessions, worker pools and capabilities of a running worker.
- The version comparison of the automatic update and its rollback; its effect is the stop and start of `StopThenStartForgetsCallbacks`.
- Fuel of starts and builds: a device (`StartTerminates`, `FuelIrrelevant`); a cyclic launch is `Diverges`.
- PlaybooksManager.Manager.ResumeActivePlaybooks: each playbook meets the same environment in every pass.
- PlaybookSuccess.UntakenStartSucceeds: one way only; whether two launches that want one name both happen depends on the order of the interconnects and on what runs.
- StartupDeadEnds.PassIsDeadEnd: one way only; where the condition fails, whether a playbook is stranded depends on which step fails (`LaunchOnTheSideStrands`, `CleanUpStrands`).
- PlaybookCycles.EveryStartEndsIff: the catalog is fixed; a state may run playbooks that are no longer stored, as after a module was removed from the cache.
- Value-level soundness of coercion (a null inside a non-nullable list), and any claim that fields present on both sides stay non-nullable: merged groups mark every field nullable.
- The type of a single value (schema.rs lines 29-117), which coerces nested elements and drops failures; a value enters inference by its type. The single-row `schema` function.
- CoerceLaws.RepeatedNamesBreakCommutativity: for groups with repeated names only this is stated; the laws are about well-formed types.
- Building the registry from a file (struct_doc.rs lines 56-116): it enters as an input, with documentation already joined.
- StructDoc: path arguments other than types are one case; the struct a schema is asked for is not on the stack itself, so a cycle may show it once more inside.
- Which file extensions are supported; a replay folder enters as its supported files in name order.
- Replay delays and jitter, and row repair, which is an arbitrary predicate on rows; `PyroRow` and `project_repair` are not part of this model.
- ChunkedFiles: a failed slice write adds nothing of its slice; file names ending in ".." are not modelled; all batches together have fewer than 2^64 rows; parquet and IPC writers.
- AnonVersions: one file is written whole or not at all; SHA-256 is injective; sorted lists enter the hash as multisets; a source is written manifest first, so a directory with code has a manifest; legacy JSON directories, build slots and interface preparation.
- Token generation, DWARF inspection, the GUI, clients, RPC dispatch and the sample modules.
