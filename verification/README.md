# Verified core of the qat compiler

qat is a compiler front end. Most of it builds LLVM code, but several parts are algorithms and state
machines of their own. This project models those parts in Dafny and proves what they are for.

- **Entity scheduling** (`EmitPhases`, `Scheduling`, `SchedulingTheory`, `Sitter`, `StuckReport`,
  `EntityKinds`). Every declaration is an entity that moves through phases; dependencies gate the next
  phase, and the driver sweeps over all modules until nothing moves. `Sitter` and `StuckReport` are the
  classes and loops; `SchedulingTheory` is about all runs that they can make: termination, confluence
  to a least fixpoint, safety, deadlock and when everything completes.
- **Blocks and locals of a function under construction** (`Ir`, `BlockTree`, `Scopes`,
  `AllocaPrefixes`, `DestructionCode`, `Destructors`). The forest of blocks is a heap of objects whose positions in the
  order of creation serve as ranks. On it rest the active block, the scope of names, the placement of
  allocas, and the destruction of locals where a function returns.
- **Text comparison** (`TextComparison`, `CompareText`). `CompareText` emits the nine-block graph into
  the block tree, and `TextComparison` gives the emitted instructions their meaning on a small machine.
- **Module lookup and link closure** (`ModuleLookup`, `LinkClosure`). Mutually recursive searches over
  submodules and imports, and a closure that changes a flag while it walks.
- **Link names** (`LinkNames`, `BracketedText`, `Demangling`, `EntityNames`). The printer, and a reader
  that takes the units back out of a name, which is why names tell entities apart.
- **Generic variants and imports** (`GenericVariants`, `BringEntities`). The table of the variants of
  a generic function, and the import sentences of a file, which share its module.

What is outside a part comes in as a parameter: which visibilities are accessible, whether types are
the same, whether a constraint holds, and what the path of an import leads to. Errors that the
compiler reports are failed outcomes. Names of files, functions and lines refer to the compiler's
sources.

Two facts about the code came out of the proofs. Two functions of the same name in different files of
one library have the same link name, because only libraries appear in it
(`EntityNames.FunctionNamesTellLibraries`, `EntityNames.FilesOfLibraryCollide`). The walk for libraries
leaves out two of the lists that the walk for object files follows. One of them, of brought flag types
(`src/IR/qat_module.hpp:499`), is never filled. The other, of brought prerun functions, is
(`src/IR/qat_module.cc:838-844`), so that a module which gets a prerun function from a library that it
reaches in no other way, such as one of its parent, is linked without the libraries of that library
(`LinkClosure.LinkWithPrerunFunction`); `LinkClosure.ClosuresAgree` says exactly when the two walks
reach the same modules.

## Model

| member | source | states |
|---|---|---|
| EmitPhases.GetNextPhase | src/IR/emit_phase.hpp:20-44 | the phase after a phase is the one of the next rank; the last phase follows itself; an entity without a phase starts with the first |
| Scheduling.AdvanceKeepsCoherent | src/IR/qat_module.cc:65-85 | running the next phase of an entity keeps its status what its phase and configuration say it should be, and moves its rank by one |
| Scheduling.RunKeepsWellFormed | src/IR/qat_module.cc:65-85 | after any run every entity has the status that belongs to the phase it has reached |
| Sitter.EntityState.AddDependency | src/IR/qat_module.hpp:336-350 | a dependency of an entity on itself or one that is there already is dropped, any other is appended; nothing else changes |
| Sitter.EntityState.IsReadyForNextPhase | src/IR/qat_module.hpp:382-410 | true exactly when every dependency tagged with the next phase has its target in the required status, that is, when every such target has run a phase that the dependency waits for |
| Scheduling.MeetsInPhases | src/IR/qat_module.hpp:388-402 | in terms of phases: a partial dependency is met exactly from the first status-giving phase of its target on, a complete one from the completion or children phase on, one on children from the children phase on, each also by the last phase, and for entities without children from the completion phase on |
| SchedulingTheory.MetAfterPhases | src/IR/qat_module.hpp:388-402 | whether a dependency is met after any number of further phases depends on which phases have run, and on whether the target was settled in advance |
| SchedulingTheory.ReadyInPhases | src/IR/qat_module.hpp:382-410 | an entity is ready exactly when the target of each dependency tagged with its next phase has run a phase that this dependency waits for |
| Sitter.EntityState.DoNextPhase | src/IR/qat_module.cc:65-85 | phase and status become those of the configuration table, applied to the old ones; the body of the phase is opaque |
| Sitter.Mod.AddEntity | src/IR/qat_module.hpp:625-629 | the new entity is in its initial state and is appended to the entries of the module |
| Sitter.Visit | src/sitter.cc:137-158 | one visit runs a phase exactly if the entity is incomplete and ready, and then the state of all entities is one step of the abstract system; it reports whether the entity is still incomplete |
| Sitter.SweepModule | src/sitter.cc:136-160 | a sweep over the entries of a module extends the run, and both flags describe what was seen |
| Sitter.Sweep | src/sitter.cc:135-161 | a sweep visits every entry of every module once; the flags say whether some entity moved and whether some entity is still incomplete |
| Sitter.RunPhases | src/sitter.cc:133-162 | the loop ends in a state that a valid run leads to and in which nothing incomplete is ready; the flags describe that state; the number of sweeps is at most the initial number of phases still to run plus one |
| SchedulingTheory.StatusMonotone | src/IR/qat_module.hpp:382-410 | the status of an entity never decreases as the entity takes further turns |
| SchedulingTheory.RunProgress | src/sitter.cc:133-162 | after any run the progress of an entity is its initial progress advanced once for each of its own turns |
| SchedulingTheory.RunStaysBelowFixpoint | src/sitter.cc:133-162 | no run ever moves an entity beyond any fixpoint of the readiness rule |
| SchedulingTheory.LeastFixpoint | src/sitter.cc:133-162 | where a run cannot be continued, the result is the least fixpoint of the readiness rule above the initial state |
| SchedulingTheory.Confluence | src/sitter.cc:133-162 | any two runs that cannot be continued end in the same state with the same number of turns for each entity, whatever the order of modules and entities |
| SchedulingTheory.PhasesInOrder | src/IR/qat_module.cc:65-85 | in every run each entity receives its phases in order, none repeated, none skipped, none past its last |
| SchedulingTheory.DependenciesMetFromThenOn | src/IR/qat_module.hpp:382-410 | whenever a phase of an entity runs, the target of each dependency tagged with it has run a phase that the dependency waits for, or was settled before scheduling; the dependency is met then and in every later state of the run |
| SchedulingTheory.StepLowersRemaining | src/sitter.cc:133-162 | a turn lowers the number of phases still to run by exactly one |
| SchedulingTheory.RunLength | src/sitter.cc:133-162 | the length of a run and the phases still to run after it add up to the phases to run before it |
| SchedulingTheory.StuckWaits | src/sitter.cc:163-212 | in a state where nothing is ready, an incomplete entity waits for another incomplete entity |
| SchedulingTheory.DeadlockHasCycle | src/sitter.cc:163-212 | if the loop stops with an incomplete entity, the incomplete entities contain a cycle of at least two distinct entities, each waiting for the next |
| SchedulingTheory.RankedIsComplete | src/sitter.cc:133-162 | if the (entity, phase) dependency relation admits a rank, every entity is complete when nothing can move |
| SchedulingTheory.CompletedIsRanked | src/sitter.cc:133-162 | the order of a run that completes every entity is such a rank |
| SchedulingTheory.CompletesIffRanked | src/sitter.cc:133-162 | the loop ends with every entity complete exactly when the (entity, phase) dependency relation, which says what phase of what entity each dependency waits for, admits a rank |
| StuckReport.LinesCountUnsettled | src/sitter.cc:170-203 | the number of lines reported for an entity is the number of distinct dependencies of it that have not settled |
| StuckReport.DiagnosisNotEmpty | src/sitter.cc:163-212 | when nothing is ready, the report on an incomplete entity has at least one line |
| StuckReport.DiagnosesAreSound | src/sitter.cc:163-212 | each reported entity is an incomplete entry, with a count equal to its distinct unsettled dependencies and at least one; it is called partially created exactly if it has run a partial but no completing phase |
| StuckReport.UnsettledInPhases | src/sitter.cc:176-177 | an entity is called unsettled exactly if it has not run the phase after which its children can be used |
| StuckReport.LineTellsFirstMention | src/sitter.cc:170-191 | a line tells whether the first dependency on its entity is a partial one |
| StuckReport.DiagnosesAreComplete | src/sitter.cc:163-212 | every incomplete entry is reported |
| StuckReport.Describe | src/sitter.cc:166-207 | the loop over the dependencies, with its set of entities already seen, produces the specified report on one entity |
| StuckReport.ReportModule | src/sitter.cc:164-211 | the report on one module is that on its incomplete entries in order |
| StuckReport.ReportStuck | src/sitter.cc:163-212 | the report covers all modules in order |
| StuckReport.ReportMeansIncomplete | src/sitter.cc:163-212 | when nothing is ready the report is empty exactly when every entity is complete |
| StuckReport.Schedule | src/sitter.cc:133-212 | scheduling and report together: errors are returned exactly when some entity cannot be completed |
| EntityKinds.CompilerEntitiesAreWellFormed | src/ast/define_struct_type.cc:323-338 | the phase tables that the declarations of the compiler set up satisfy what the scheduling results ask of a configuration |
| EntityKinds.WhatDependenciesWaitFor | src/ast/define_struct_type.cc:323-338 | for each kind of declaration, how many of its phases have to run before a partial, a complete or a children dependency on it is met |
| EntityKinds.MutualPointersComplete | src/ast/define_struct_type.cc:355 | two structs with pointers to one another are completed in every order of visits |
| EntityKinds.MutualMembersGetStuck | src/ast/define_struct_type.cc:355 | two structs with members of one another are never completed |
| TextComparison.LoadBytes | src/IR/logic.cc:681-693 | both byte loads of an iteration read below both counts and yield the bytes at the index |
| TextComparison.IterIncrBlock | src/IR/logic.cc:695-701 | the index increment never wraps around and advances the equal prefix by one |
| TextComparison.Loop | src/IR/logic.cc:671-709 | for all texts the loop ends, and its index is then the length exactly when the texts agree |
| TextComparison.ComparisonIsCorrect | src/IR/logic.cc:661-731 | running the graph reaches the resuming block with the PHI equal to lhs == rhs or its negation as asked; nothing faults, no addition wraps, and only the index slot and new results are written |
| TextComparison.FetchText | src/IR/logic.cc:625-655 | whatever form an operand has (constant, in memory, reference, computed), the emitted code yields its buffer and its count |
| TextComparison.CompareTextRuns | src/IR/logic.cc:615-731 | fetching both operands and comparing them yields the value asked for |
| TextComparison.FoldingAgrees | src/IR/logic.cc:601-613 | the comparison of two constants, on data that ends in a zero byte, is true exactly when the texts are equal |
| TextComparison.GraphIsTerminated | src/IR/logic.cc:661-731 | the active block and each created block but the resuming one end in exactly one terminator whose targets are created blocks |
| TextComparison.RestPredecessors | src/IR/logic.cc:711-728 | among the blocks of a comparison exactly the two incoming blocks of the PHI lead to the resuming block |
| CompareText.EmitText | src/IR/logic.cc:625-637 | fetching one operand appends its code to the active block, and for a computed operand makes one local whose alloca goes to the entry block |
| CompareText.CreateBlocks | src/IR/logic.cc:652-660 | the eight blocks are created in order under the right parents, the resuming block next to the active one and linked behind it |
| CompareText.EmitCode | src/IR/logic.cc:661-731 | the length check is appended to the active block and each created block is filled with its code |
| CompareText.CompareText | src/IR/logic.cc:615-731 | two constants are folded without touching anything; otherwise the function holds exactly the specified graph, emission continues in the resuming block, no other block leads to it, and the slots of the index and of the texts are among those of the entry block |
| CompareText.EmittedComparisonIsCorrect | src/IR/logic.cc:615-731 | for all texts of 64-bit length, every run from the start of the function that comes to a comparison, over whatever calls and other instructions with whatever outcomes, goes on to its resuming block with the returned value equal to the comparison asked for; the slots that this needs are those that the emission puts into the entry block |
| CompareText.EmittedGraphIsWellFormed | src/IR/logic.cc:661-731 | what the emission left is terminated block by block, and the predecessors of the resuming block in the whole function are exactly the incoming blocks of its PHI |
| CompareText.PlacedSlots | src/IR/logic.cc:575-599 | placing allocas makes exactly the slots asked for and keeps those that were there |
| BlockTree.IRBuilder.AddBranch | src/IR/control_flow.cc:11-33 | a branch is appended exactly if the current block has no terminator yet |
| BlockTree.Function.NewAlloca | src/IR/logic.cc:575-599 | the alloca is placed behind the allocas at the start of the entry block and before everything else |
| BlockTree.Function.GetStrComparisonIndex | src/IR/function.cc:365-373 | the index local is made once, in the first block, and returned unchanged from then on; the entry block makes its slot, in the first call and in every later one |
| BlockTree.Block.constructor | src/IR/function.cc:62-73 | a block is appended to the children of its parent or to the roots of the function, and the function stays well formed |
| BlockTree.Block.NewLocal | src/IR/function.hpp:117-120 | a new local gets an id of its own and an alloca in the entry block; the slots of all locals stay made by the leading allocas |
| BlockTree.Block.LinkPreviousBlock | src/IR/function.hpp:147-150 | both links are set, and the function stays well formed exactly if the previous block was created earlier |
| BlockTree.Block.SetActive | src/IR/function.cc:136-146 | afterwards the active block of the function is this block and the builder appends to it; no block off the path from the root has changed its active field |
| BlockTree.Block.ActivePathLeadsHere | src/IR/function.hpp:127-133 | following active fields from the function leads to the active block of every block on the active path |
| BlockTree.Block.SameActivePath | src/IR/function.hpp:127-133 | whether a block is on the active path depends on the blocks above it only |
| BlockTree.Block.CollectAllLocalValuesSoFar | src/IR/function.cc:148-167 | the list is extended by the locals of parent, previous block and block in this order, leaving out ids that are there |
| Scopes.CollectedIsScope | src/IR/function.cc:148-167 | collecting adds exactly the locals of blocks reachable over parent and previous links, and each id once |
| Scopes.CollectedInOrder | src/IR/function.cc:148-167 | locals are collected in the order parent, previous block, own, all the way up, leaving out what is there |
| Scopes.LookupIsFirstMatch | src/IR/function.cc:75-111 | a lookup yields the first match in the order own, previous, parent |
| Scopes.ScopeAgreement | src/IR/function.cc:75-167 | a name has a value exactly when looking it up yields a local, and exactly when a local of that name is among the collected ones |
| AllocaPrefixes.EntryBlockStaysOrdered | src/IR/logic.cc:575-599 | under any interleaving of placed allocas and appended instructions the entry block stays allocas first, and what was in it keeps its order |
| AllocaPrefixes.PlacingKeepsAllocasFirst | src/IR/logic.cc:575-599 | one placement keeps allocas first and puts the new one at the end of them |
| AllocaPrefixes.AllocasRunFirst | src/IR/logic.cc:575-599 | the leading allocas of the entry block run one after the other, and each makes its slot |
| AllocaPrefixes.SlotsDominate | src/IR/logic.cc:575-599 | in every run from the start of a function, calls and jumps with any outcomes included, all slots of the entry block are there at every point past its leading allocas |
| AllocaPrefixes.SlotsStay | src/IR/logic.cc:575-599 | running never takes a slot away |
| AllocaPrefixes.LaterEmissionKeepsSlots | src/IR/logic.cc:575-599 | placing further allocas and emitting further code keeps every slot of the entry block |
| AllocaPrefixes.AllSlotsAreInPrefix | src/IR/logic.cc:575-599 | the leading allocas make every slot of the entry block |
| DestructionCode.NullCheckBranches | src/IR/function.cc:504-512 | every run of the check goes to the guarded block exactly if the pointer is not null, and to the resuming block exactly if it is |
| DestructionCode.OneIsDestroyedIfSet | src/IR/function.cc:536-558 | every run from the check comes to the resuming block and has called the destructor of the pointee once, on that pointer, if it is not null, and not at all if it is |
| DestructionCode.EachIsDestroyedIfSet | src/IR/function.cc:492-535 | for a slice, every run has called it as often as the slice has values, or not at all if the pointer is null |
| DestructionCode.FreedAfterwards | src/IR/function.cc:560-572 | the memory is freed through the same pointer after that |
| Destructors.DestructionInOrder | src/IR/function.cc:470-576 | what is destroyed for one local comes after what is destroyed for the locals before it |
| Destructors.EmitNullCheck | src/IR/function.cc:504-512 | the code that skips the destruction of a pointee when the pointer is null |
| Destructors.DestroyPointee | src/IR/function.cc:536-558 | for a pointer to one value: the guarded call in a new child block, and emission resumes in a new root block linked behind the active one; every run that comes here calls the destructor once if the pointer is not null and not at all if it is |
| Destructors.DestroyPointees | src/IR/function.cc:492-535 | for a slice: count local, null check, loop head and loop body with its call, and emission resumes in a new root block; every run that comes here calls the destructor once for each value if the pointer is not null and not at all if it is |
| Destructors.DestroyLocal | src/IR/function.cc:475-574 | the calls that one local adds are those of the first case that applies to it |
| Destructors.DestructorCaller | src/IR/function.cc:470-576 | the calls added over the active block and the new blocks are exactly those that destroy the collected locals, in order; no other block gets a call |
| Destructors.DestroyedExactlyOnce | src/IR/function.cc:470-576 | each local in scope is destroyed exactly once if it is not a reference and has a destructor or is destructible, and freed exactly once if it is otherwise a pointer owned by the function |
| Destructors.OutOfScopeIsLeftAlone | src/IR/function.cc:470-576 | nothing is called on a local that is not in scope |
| ModuleLookup.LookupAgrees | src/IR/qat_module.cc:878-963 | the three questions and the lookup all answer by the ordered list of matches: own, submodules, brought, imports |
| ModuleLookup.MatchesAreOffers | src/IR/qat_module.cc:878-963 | the matches are exactly what modules reached over submodules and unnamed imports that are not libraries declare under the name, or bring under it as the name of an entry or as that of the function of an entry without one, accessibly |
| ModuleLookup.LookupIsReachability | src/IR/qat_module.cc:878-963 | without cycles, some question is answered with yes exactly when a reachable module offers a match, exactly when the lookup is not null; the unchecked dereference is always defined and what is found is accessible |
| ModuleLookup.LookupOrder | src/IR/qat_module.cc:928-963 | what is found comes from the own functions, from the first submodule that offers something, from the brought functions or from the first import that offers something, and nothing earlier in this order offers anything |
| ModuleLookup.AliasHidesName | src/IR/brought.hpp:35-43 | a function that is brought under another name is found under that name and not under its own |
| LinkClosure.FollowedForLibs | src/IR/qat_module.cc:2571-2626 | the modules followed for libraries, list by list |
| LinkClosure.Mod.GetAllLinkableLibs | src/IR/qat_module.cc:2559-2626 | the result is the union of the libraries of all reachable modules, the flag of each reachable module becomes the disjunction of the initial flags reachable from it, and other flags are unchanged |
| LinkClosure.Mod.GetAllObjectFiles | src/IR/qat_module.cc:2492-2557 | the result is exactly the object files of the modules reachable over its own list of edges |
| LinkClosure.Mod.HandleModules | src/IR/qat_module.cc:2571-2579 | handling the modules of one list keeps what the modules handled before have established |
| LinkClosure.ReachIsLeast | src/IR/qat_module.cc:2492-2626 | what is reached is contained in every set that contains the start and what its members follow |
| LinkClosure.ReachFollows | src/IR/qat_module.cc:2492-2626 | what is reached contains the start and whatever its members follow |
| LinkClosure.ClosingTwice | src/IR/qat_module.cc:2571-2579 | collecting a second time changes no flag |
| LinkClosure.LibsAreWithinObjects | src/IR/qat_module.cc:2492-2626 | every module followed for libraries is also followed for object files |
| LinkClosure.LibListsAreObjectLists | src/IR/qat_module.cc:2508-2626 | the object file walk follows the lists of the library walk and those of prerun functions and flag types |
| LinkClosure.ClosuresAgree | src/IR/qat_module.cc:2492-2626 | the two walks reach the same modules exactly if the modules of prerun functions and flag types, of every module that the library walk reaches, are reached by the library walk too |
| LinkClosure.PrerunFunctionsBringNoLibraries | src/IR/qat_module.cc:2508-2626 | a module that needs another one for prerun functions alone reaches it for object files and not for libraries |
| LinkClosure.LinkWithPrerunFunction | src/IR/qat_module.cc:2492-2626 | two such modules: the object file of the second is linked with the first, its library is not |
| LinkNames.PrintName | src/IR/link_names.cc:26-205 | the name appended piece by piece is the specified one; that of a C entity is what it asks to be linked as, or else the name of its last unit, behind struct or union for types and toggle types, whatever units stand before; that of a C++ entity is empty |
| LinkNames.PrintUnit | src/IR/link_names.cc:56-200 | each kind of unit prints its text; the unary operator falls through to the text of the destructor |
| LinkNames.PrintSubs | src/IR/link_names.cc:113-121 | sub-lists are separated by commas |
| BracketedText.SplitJoin | src/IR/link_names.cc:48-203 | parts joined with a separator that they contain inside brackets only can be found again |
| Demangling.UnitIsTokens | src/IR/link_names.cc:53-200 | the text of a unit is its parts, joined with colons |
| Demangling.NameIsTokens | src/IR/link_names.cc:48-203 | a native name is the prefix followed by all parts of all units, joined with colons |
| Demangling.UnitReadsBack | src/IR/link_names.cc:53-200 | the parts of a unit, whatever follows, determine its kind, its name and its sub-lists |
| Demangling.DemangleToName | src/IR/link_names.cc:26-205 | reading back the name of a native entity gives its units |
| Demangling.ToNameIsInjective | src/IR/link_names.cc:26-205 | two native entities have the same name exactly when their units are the same, bare sub-units up to their kind |
| Demangling.KeywordPrefixCollides | src/IR/link_names.cc:61-80 | the condition on type names is needed: without it a type collides with a choice, mix or toggle type, under any parent or none |
| EntityNames.FunctionNamesTellLibraries | src/IR/qat_module.cc:544-558 | two functions have the same link name exactly when their names and the libraries around them are the same; files and folders make no difference |
| EntityNames.ForeignFunctionsKeepTheirNames | src/IR/function.cc:236-268 | a C function, marked so itself or by its module, is linked as what it asks for or under its own name, whatever modules are around it |
| EntityNames.NativeFunctionsIgnoreAliases | src/IR/function.cc:236-268 | what a native function asks to be linked as makes no difference |
| EntityNames.MethodText | src/IR/method.cc:93-170 | for each kind of method, the text that it adds to the name of its parent |
| EntityNames.FilesOfLibraryCollide | src/IR/qat_module.cc:544-558 | functions of the same name in two files of one library, which the check for names in one module does not compare, have the same link name |
| EntityNames.GetLinkNamesFrom | src/IR/method.cc:93-170 | the list of a method is that of its parent with the unit of the method appended |
| EntityNames.MethodUnitIsWellBuilt | src/IR/method.cc:93-170 | the units built for methods are of the kind that the name results ask for |
| EntityNames.IndexOperatorIsWellNamed | src/ast/expressions/operator.cc:136-137 | the index operator, whose name consists of brackets, is among the methods that the name results cover |
| EntityNames.MethodNamesTell | src/IR/method.cc:93-170 | two methods have the same link name exactly when their parents have the same units and the methods agree in kind and in the names and types that count for it |
| GenericVariants.Check | src/IR/generic_variant.hpp:30-95 | true exactly when the lists have the same length and their fills are the same one by one |
| GenericVariants.SameFillIsSameMeaning | src/IR/generic_variant.hpp:36-91 | a type and a constant that stands for it are the same fill; otherwise types are compared with types and values with values |
| GenericVariants.CheckIsEquivalence | src/IR/generic_variant.hpp:30-95 | comparing lists of fills is an equivalence if sameness of types and equality of values are |
| GenericVariants.FillParameters | src/IR/generics.cc:12-71 | the list is completed with defaults, or an error is found |
| GenericVariants.CompletedWhenFitting | src/IR/generics.cc:12-71 | a request is completed exactly when what it gives is of the sort that its parameters expect and the others have defaults, which are then appended in order |
| GenericVariants.FullRequestIsKept | src/IR/generics.cc:12-71 | a completed list starts with the request and has an entry for each parameter |
| GenericVariants.GenericFunction.FillGenerics | src/IR/function.cc:419-468 | the first variant that matches is returned and nothing changes; otherwise the completed list is stored with a new function, unless there is an error |
| GenericVariants.RequestKeepsInequivalent | src/IR/function.cc:419-468 | a request that fills every parameter keeps the stored variants pairwise inequivalent |
| GenericVariants.EquivalentRequestsShareVariants | src/IR/function.cc:419-468 | over any sequence of full requests a later one gets the function of an earlier one exactly when the two are equivalent |
| GenericVariants.ShortRequestsMiss | src/IR/generic_variant.hpp:32-33 | a request that relies on defaults is never answered from the table; it leaves the variants inequivalent exactly when no variant matches the completed list |
| GenericVariants.ShortRequestTwice | src/IR/function.cc:419-468 | the same short request made twice leaves two equivalent variants |
| GenericVariants.OnlySatisfyingAreStored | src/IR/function.cc:426-440 | over any sequence of requests everything stored satisfies the constraint |
| GenericVariants.FullRequestIsGranted | src/IR/function.cc:419-458 | a full request gets something exactly when a stored variant matches it, or when it fits the parameters and satisfies the constraint; a refused request stores nothing |
| GenericVariants.ViolationsGetNothing | src/IR/function.cc:426-434 | where equivalent lists satisfy the constraint alike, a full request that violates it never gets anything |
| BringEntities.BroughtGroup.Bring | src/ast/bring_entities.cc:17-22 | the group is marked as brought and its entity state, if there is one, becomes complete |
| BringEntities.BringEntities.CreateHandler | src/ast/bring_entities.cc:40-124 | creating the entities of a fresh tree gives each leaf an entity state and brings only modules, each once; each entry is for the module that the way to its leaf leads to, every leaf is brought or leads to no module, and a failure is an error on some way |
| BringEntities.BringEntities.BringHandler | src/ast/bring_entities.cc:253-464 | each entry that a phase adds is for what its leaf stands for in the module that the groups above it lead to, one group after the other from the root; if the phase succeeds every leaf is brought or was not found, and if it fails some way led to an error; nothing is added when every leaf is brought |
| BringEntities.BringEntities.CreateEntity | src/ast/bring_entities.cc:36-129 | whatever other imports have done, creation asks for unbrought trees of its own only; if it succeeds every leaf has an entity state, and only modules are brought, each once and each what the way to its leaf leads to |
| BringEntities.BringEntities.DoPhase | src/ast/bring_entities.cc:247-469 | any phase keeps at most one entry for each leaf, undoes nothing, and changes nothing once all leaves are brought; its entries are founded, its leaves accounted for and its failures errors, tree by tree |
| BringEntities.BringEntities.Emit | src/ast/bring_entities.cc:36-469 | in a module with any earlier imports, over one creation and any number of phases each leaf adds one entry if it is marked as brought and none otherwise; if creation succeeded, a leaf that is brought has an entity state and it is complete; each entry is for what the way to its leaf leads to when the entity is created or in one of the phases |
| BringEntities.EmitImports | src/ast/bring_entities.cc:36-469 | creations and phases of any number of import sentences of a module and imports of paths, in any order: each leaf of each sentence has exactly one entry if it was brought and none otherwise, nothing is undone, each entry is explained by one of the events, and each event accounts for its leaves or met an error |
| BringEntities.LeadsFromAbove | src/ast/bring_entities.cc:253-313 | the way to a group continues from a member exactly in the module that the group above leads to |
| BringEntities.BringPath | src/ast/bring_paths.cc:20-113 | an import of a path adds one entry that belongs to no group |
| BringEntities.AtMostOneEntry | src/ast/bring_entities.cc:17-22 | no two entries of the module are for the same group |

## Left out

- The bodies of phases are opaque and have no effect on the status of other entities. Completing an entity by hand from within a phase (`src/IR/qat_module.hpp:377-380`) is not modelled: the phase that is running overwrites the current phase right after its body returns (`src/IR/qat_module.cc:71-74`).
- Modules and entities that are added while phases run: the set of entities and their dependencies are fixed during scheduling.
- `Block::is_moved` (`src/IR/function.cc:181-199`) asks the previous block and then does not look at its own list, so moves are not part of the block tree.
- Names of blocks, value names and file ranges of locals; other uses of the builder than the instructions listed in `Ir`.
- `Ir`: a text buffer is exactly the bytes that its count covers, which is stricter than memory in LLVM; loads through an element address are one instruction; the builder does not fold constants, and the order in which the operands of a nested expression are evaluated is left to right.
- `Ir`: calls, invokes and switches have outcomes that are not computed: any result, any values written to existing slots, and any of the targets. A callee that never returns is not part of this; a return ends the run. Whether a pointer is null is part of its value.
- `Ir`: allocas and locals share their numbers; a name for a nameless local is made from that number.
- TextComparison.FoldingAgrees: a non-empty text of zero bytes only. LLVM stores it as an aggregate zero and not as a data array, so the cast at `src/IR/logic.cc:608-609` is not valid for it.
- Destructors.DestroyPointees: the loop body destroys through the first element's address on each iteration, as the code does (`src/IR/function.cc:522-534`); that every element of a slice is destroyed is not claimed, but that the destructor is called as often as there are elements. Running the code is about calls that leave the pointer and the count alone.
- Destructors.DestructorCaller: destruction at the level of a type is one call; the blocks that some types create for it are not part of this model, nor is the linking of the `free` function or the method-specific destruction that runs after the function's own (`src/IR/function.cc:578-705`).
- Lookups other than functions repeat the same shape; `has_nth_parent`, `get_lib` and `get_generic_struct_type` have another one and are not covered, nor is the lookup of entities by name alone. The file path that `has_function_in_imports` returns beside its answer is left out.
- Cyclic imports: the lookups and the closures recur without a visited set, so they are modelled on graphs without cycles, with the rank as a ghost parameter.
- LinkClosure: libraries given by static and shared paths, or by a name and a lookup path, add no argument here, as in the code; the linker invocation is not modelled.
- LinkNames: names in foreign modules (`C`, `C++`) are printed as the code does but are not claimed to be unique. `LinkNames` values are copied in the source, so `AddUnit` returns the new value.
- Demangling.ToNameIsInjective: covers lists of declared entities; type definitions append a text that is a link name already (`src/IR/types/definition.cc:32-48`) and are not covered. Conditions: names with matching brackets and without a colon outside them; type texts with matching brackets and, in lists, without a comma outside brackets; type names that do not start with `choice_`, `mix_` or `toggle_`.
- EntityNames.FunctionNamesTellLibraries: module initialisers are named after the module that they are for (`src/IR/qat_module.cc:562-570`), with colons between nested libraries and with a file path, which may hold any character, outside libraries; names with a colon outside brackets are outside the condition.
- GenericVariants: requests made while a variant of the same function is being created, warnings, and the unsetting of parameters, which pops an empty list for a parameter that was filled from its default (`src/ast/types/typed_generic.cc:14`).
- GenericVariants: `TypeInfo` objects; a constant that stands for a type is given with that type.
- BringEntities: how the path of a group is resolved is a parameter that may answer differently each time; the dependencies that imports get (`src/ast/bring_entities.cc:131-245`) and mentions for tools are left out.
- Driver, file system, compilation of objects, overview output, and all messages.
