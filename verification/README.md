# ZenStack: models and proofs of its query cache, expression language and schema inheritance

This project models the parts of ZenStack in which a mistake is hardest to see, and proves what they promise.

* **The ZModel expression language.** `ZModelSyntax`, `ZModelPrinter` and `ZModelParser` hold the syntax trees, the
  printer with its priority table and the grammar's layered left-associative parser, on tokens. `ZModelRoundTrip`
  proves when printing and parsing are inverse. `JavaScript` is the small target language with `undefined`, `null`,
  `?.`, `??` and short circuit; `ExpressionTransformer` is the compiler to it. `PolicyMeaning` gives policy rules a
  meaning of their own and proves exactly when compiled rules have it; `EntityChecker` is the whole function generated
  from them. `ValidationTyping` proves that compiled validation rules do not throw, `ValidationLeniency` what they
  accept.
* **The client query cache.** `NestedWriteVisitor` walks mutation payloads, `EveryWriteOnce` says which places of a
  payload it calls back for, `QueryAnalyzer` finds the models read and written, `Mutator` says what an optimistic
  update makes of a query result, `CopyOnWrite` does it on a heap of shared arrays and objects (`CachedTrees`) without
  writing to any of them, and shares what it leaves alone, `OptimisticLists` relates it to plain list operations,
  `Invalidation` proves that whatever changed will be invalidated, and `CacheProtocol` runs any number of mutations
  through optimistic writes, responses, settlement and refetching. `QueryClient` shows the client's loops to be
  stretches of that protocol. `Json` and `ModelMeta` are the data they share.
* **Schema inheritance.** `Hierarchy` holds the walk over base models, its validation and the inheritance chain;
  `BaseMerge` the merging of base members model by model; `MergedModels` what the result is; `SchemaMerger` the
  merging in place; `IdFields` the two notions of id fields.
* **Smaller algorithms.** `OpenApiPrune` (worklist closure), `Imports` (two import walks), `SimpleTraverse` (cyclic
  heap), `ReverseEnumeration` (a list that shrinks while it is walked). `Closure` is the reachability they share.

Effects become parameters: the time, generated ids and `parseInt` are an `Env`; coercing comparisons, regular
expressions and the other library tests of compiled rules are a `Host`; the array index that a property name denotes
is a function. A payload callback is a recorded event. In `CacheProtocol` each `await` is a step boundary.

Where the code and its own words differ, the model follows the code:

* The printer promises text that parses back, but `!` and `.` never get parentheses
  (`ZModelRoundTrip.RoundTripIffFaithful`).
* The inheritance check reports "circular inheritance" for diamonds too (`Hierarchy.ValidateInheritance`).
* "The first constraint is the id" fails for names like array indices (`IdFields.RuntimeIdsAreFirst`).
* Records are compared through a field called `id`, whatever the id fields are (`PolicyMeaning.ModelEqualityIff`,
  `PolicyMeaning.RecordEqualityIff`).
* In a comparison, `&&` and `||` count as the operand that decides them, which may be missing where the connective is
  false (`PolicyMeaning.EqualityIff`, `PolicyMeaning.SearchIff`); a list of fields finds null and undefined different
  (`PolicyMeaning.FieldInFieldsIff`).
* A comparison with `this` takes an id that is null for different from one that was not loaded
  (`PolicyMeaning.ThisEqualityIff`).
* Two lists of models always compare equal; other lists, and dates, equal only themselves
  (`PolicyMeaning.ListEqualityIff`, `PolicyMeaning.ObjectEqualityIff`).
* Comparisons with members of fields, and comparisons of comparisons, are not lenient in validation
  (`ValidationLeniency.MemberComparisonNeedsTheMember`, `ValidationLeniency.ComparedComparisonNeedsTheField`).
* Deleting a single cached object changes nothing, since its `null` result is taken for no change, and a `deleteMany`
  without `where` never reaches the callbacks; both are part of `Mutator` and `NestedWriteVisitor`.
* `@@schema` is dropped only if the inheriting model has its own; an override halfway up does not hide the root's.

## Model

| member | source | states |
|---|---|---|
| `ZModelSyntax.PriorityIsLayer` | packages/language/src/ast.ts:21-38 | The printer's priority of an operator is the number of the grammar layer that parses it, for every operator and layer |
| `ZModelRoundTrip.PrintThenParse` | packages/sdk/src/zmodel-code-generator.ts:225-393 | For every expression without a binary operand under `!` and without a binary or `!` operand under `.`, and every token suffix that cannot continue it, the layered left-associative parser applied to the printed tokens returns that expression and that suffix |
| `ZModelRoundTrip.RoundTripIffFaithful` | packages/sdk/src/zmodel-code-generator.ts:245-393 | Printing and parsing gives the expression back if and only if no `!` stands over a binary expression and no `.` over a binary or negated one, at any depth: the two places where the printer never writes parentheses |
| `ZModelRoundTrip.PrintIsMinimal` | packages/sdk/src/zmodel-code-generator.ts:362-388 | No text that parses to the expression has fewer opening parentheses than the printed one |
| `ZModelRoundTrip.ParsedTextHasNeeded` | packages/language/src/generated/grammar.ts:1261-1819 | Whatever text the grammar parses, it contains at least the parentheses that its tree needs: one for each operand that a layer cannot take bare |
| `ZModelRoundTrip.PrintIsInjective` | packages/sdk/src/zmodel-code-generator.ts:225-393 | Two expressions of that fragment with the same printed text are equal |
| `ZModelRoundTrip.NegatedComparisonChanges` | packages/sdk/src/zmodel-code-generator.ts:245-248 | `!(a == b)` is printed so that it parses as `(!a) == b` |
| `JavaScript.EvalFrame` | packages/sdk/src/typescript-expression-transformer.ts:533-548 | A compiled expression is evaluated alike in all environments that agree on its free variables, so code outside a callback cannot see the callback's `_item` |
| `JavaScript.LoopMeaning` | packages/sdk/src/typescript-expression-transformer.ts:543-546 | `some` and `every` with an arrow function whose results are known give the disjunction or conjunction of their truth, evaluated with short circuit |
| `PolicyMeaning.CompiledMeaning` | packages/sdk/src/typescript-expression-transformer.ts:75-136 | Every well-typed policy expression that is settled compiles, its code never throws on any data with missing or null parts, ids included, that represents the entities, and its value (for connectives its truth) is the source meaning: references bind to the innermost collection element, and after an update direct fields read the pre-value. Well typed are equalities of scalars of one type, of dates and the like, of records, of lists and with null, relations of numbers, searches for scalars in lists of their type, text searches for literals, connectives, negation and collection predicates. Settled means that each equality, relation and search that evaluation comes to is one of those that the next rows show to be right |
| `PolicyMeaning.PlainIsSettled` | packages/sdk/src/typescript-expression-transformer.ts:443-517 | A rule is settled on all data if no operand of an equality or search is a connective, no records (except with null, for `this`), lists, dates and the like are compared, no numbers are related, and lists written out hold constants |
| `PolicyMeaning.PlainIsSettledWithIds` | packages/sdk/src/typescript-expression-transformer.ts:443-517 | If such a rule also compares records, with `this` or where `id` is the only id field, it is settled on all data in which the records that evaluation comes to compare have their ids; no other record needs to |
| `PolicyMeaning.EqualityIff` | packages/sdk/src/typescript-expression-transformer.ts:443-517 | The code of `==` or `!=` between settled operands, connectives included and nested at will, has its meaning if and only if: for scalars and null, both or neither operand is a connective whose deciding operand is missing, or one side is true; for `this`, records, dates and the like, and lists, as the rows `ThisEqualityIff`, `RecordEqualityIff`, `ObjectEqualityIff` and `ListEqualityIff` say |
| `PolicyMeaning.ConnectiveEqualityIff` | packages/sdk/src/typescript-expression-transformer.ts:443-517 | `(a && b) == r`, its counterpart with an or, and both with `!=`, have their meaning if and only if the operand that decides the connective is not missing or `r` is true |
| `PolicyMeaning.RecordEqualityIff` | packages/sdk/src/typescript-expression-transformer.ts:446-450 | The code of `==` or `!=` on two records or missing records compares their field `id`, and has its meaning, equality of all id fields, if and only if: for two records, `id` is the only id field or the two comparisons agree on these two; for a record and a missing one, the record has an `id` that is not null; two missing ones it always finds equal, as meant |
| `PolicyMeaning.ThisEqualityIff` | packages/sdk/src/typescript-expression-transformer.ts:495-510 | The code of `==` or `!=` with `this` compares all id fields as they are, null and undefined apart, and has its meaning if and only if two records whose ids mean the same lack the same of them in the same way |
| `PolicyMeaning.ThisEqualityDiffers` | packages/sdk/src/typescript-expression-transformer.ts:495-510 | An input: an entity loaded without its ids and a user whose ids are null have the same ids, but the code of `this == auth()` yields false |
| `PolicyMeaning.RelationIff` | packages/sdk/src/typescript-expression-transformer.ts:443-517 | The code of `<`, `<=`, `>` or `>=` on numbers has its meaning, which is false of a missing one, if and only if both sides are there or JavaScript denies the relation of the values left, null and undefined as the data has them |
| `PolicyMeaning.MissingNumberDiffers` | packages/sdk/src/typescript-expression-transformer.ts:443-517 | An input: with `f` null and `g` one, `f < g` is false, but its code yields true on a host that relates null to one as JavaScript does |
| `PolicyMeaning.RawIsLeft` | packages/sdk/src/typescript-expression-transformer.ts:75-136 | The code of a settled rule yields the very value that the data holds for it, null or undefined where that is missing: the field as the record has it, along a path the last one or undefined, for a connective the deciding operand's, and otherwise the meaning |
| `PolicyMeaning.ObjectEqualityIff` | packages/sdk/src/typescript-expression-transformer.ts:443-517 | The code of `==` or `!=` on two values of a type that JavaScript holds as objects, such as DateTime, compares object identities, and has its meaning, equality of content, if and only if one is missing or their content is the same just when they are one object |
| `PolicyMeaning.DateFieldsDiffer` | packages/sdk/src/typescript-expression-transformer.ts:443-517 | An input: two such fields with the same content in two objects are equal, but their code yields false |
| `PolicyMeaning.ListEqualityIff` | packages/sdk/src/typescript-expression-transformer.ts:443-517 | Comparing two lists, fields or written out, never throws. The code takes all lists of models for equal, so it has its meaning, item by item, if and only if they are; it takes other lists for equal if both are missing or they are one object, so it has its meaning if and only if one is missing or their items are the same just when they are one object |
| `PolicyMeaning.WrittenListIff` | packages/sdk/src/typescript-expression-transformer.ts:443-517 | A list written out equals nothing: `tags == [..]` is always false and `!=` always true, which is right if and only if the lists are not the same |
| `PolicyMeaning.ListFieldsDiffer` | packages/sdk/src/typescript-expression-transformer.ts:443-517 | An input: two fields holding equal items in two arrays are equal, but their code yields false |
| `PolicyMeaning.ModelListsLookEqual` | packages/sdk/src/typescript-expression-transformer.ts:446-450 | An input: `p.g == f` on an empty and a nonempty list of models is false but its code yields true |
| `PolicyMeaning.SearchIff` | packages/sdk/src/typescript-expression-transformer.ts:478-493 | The code of `x in list` or `has(list, x)` has its meaning if and only if: with `x` there, it is not a false that the list only has as a connective with a missing decider; with `x` missing, an item written out is missing in the data in the same way, as null or as undefined, just when an item is missing that is no connective, or, if `x` is a connective with a missing decider, just when an item is false, be it for a missing decider |
| `PolicyMeaning.OpenSearchIff` | packages/sdk/src/typescript-expression-transformer.ts:478-493 | The same without such connectives among the items: where no item is missing, the code is right unless `x` is a connective with a missing decider and false is listed; where `x` is no such connective, it is right exactly if `x` is there, or no item is missing, or one is missing in the same way |
| `PolicyMeaning.FieldInFieldsIff` | packages/sdk/src/typescript-expression-transformer.ts:478-493 | A field searched for in a list of fields has its meaning if and only if the field is there, or all of the list are, or one of them is missing the way it is |
| `PolicyMeaning.FieldInFieldsDiffers` | packages/sdk/src/typescript-expression-transformer.ts:478-493 | With `f` null and `g` left out, `f in [g]` is true but its code yields false |
| `PolicyMeaning.PolicyDecides` | packages/schema/src/plugins/enhancer/policy/utils.ts:445-458 | With the options of entity checkers a settled rule's compiled form takes the same decision as the rule, before and after updates |
| `EntityChecker.CheckerDecides` | packages/schema/src/plugins/enhancer/policy/utils.ts:433-495 | The whole checker never throws and answers true if and only if no deny rule holds and an allow rule does or none is needed: none is after an update, nor for a field without allow rules |
| `PolicyMeaning.PredicateMeaning` | packages/sdk/src/typescript-expression-transformer.ts:533-548 | Arbitrarily nested `?`, `!` and `^` predicates quantify over the list; on a missing list they are false, false and true |
| `PolicyMeaning.ThisEqualityMeaning` | packages/sdk/src/typescript-expression-transformer.ts:495-510 | Where the compared ids are not missing in different ways, comparison with `this` is equality of all id fields, and of nullness; `this == null` is false |
| `PolicyMeaning.ModelEqualityIff` | packages/sdk/src/typescript-expression-transformer.ts:446-450 | Comparing two records through their `id` is right for all records of a model that have their ids if and only if `id` is the model's only id field |
| `PolicyMeaning.ConnectiveAsOperandDiffers` | packages/sdk/src/typescript-expression-transformer.ts:443-517 | An input: with the field missing, `(a && a) == false` is true but its code yields false |
| `PolicyMeaning.Compiles` | packages/sdk/src/typescript-expression-transformer.ts:443-548 | The compiler rejects no well-typed policy expression |
| `ValidationLeniency.LenientIsSteady` | packages/sdk/src/typescript-expression-transformer.ts:361-384 | Leaving out fields never turns a lenient rule from true to false, nor makes it throw, if none of its parts throws on the complete record |
| `ValidationTyping.TypedRuleYields` | packages/sdk/src/typescript-expression-transformer.ts:75-136 | Well-typed validation rules compile, and their code never throws on any typed record, whatever the record leaves out, but yields a value of the rule's type |
| `ValidationLeniency.TypedRuleIsCalm` | packages/sdk/src/typescript-expression-transformer.ts:361-384 | So none of the parts of a well-typed rule throws on a typed record |
| `ValidationLeniency.PartialInputIsAccepted` | packages/schema/src/plugins/zod/generator.ts:698-742 | For every well-typed lenient rule, and for a bare field as the whole rule: if the compiled rule accepts a typed record, it accepts every record got from it by making any fields undefined. Lenient are comparisons and memberships of fields, negated fields and members, collection predicates and functions of fields or of members of fields, and what connectives make of these |
| `ValidationLeniency.CalmInputIsAccepted` | packages/schema/src/plugins/zod/generator.ts:698-742 | The same without types, for records on which no part of the rule throws |
| `ValidationLeniency.MemberComparisonNeedsTheMember` | packages/sdk/src/typescript-expression-transformer.ts:443-477 | A rule `p.f == c` accepts exactly the records whose `p.f` is there and equals `c`: it takes `{ p: { f: c } }` and rejects the record without `p`, so it is not lenient |
| `ValidationLeniency.NotNullNeedsTheField` | packages/sdk/src/typescript-expression-transformer.ts:456-464 | A rule `f != null` accepts exactly the records whose `f` is neither null nor missing, so it is not lenient |
| `ValidationLeniency.NegatedComparisonNeedsTheField` | packages/sdk/src/typescript-expression-transformer.ts:425-437 | A rule `!(f == c)` rejects every record without `f`, so it is not lenient |
| `ValidationLeniency.ComparedComparisonNeedsTheField` | packages/sdk/src/typescript-expression-transformer.ts:443-477 | A rule `(f == c) == false` accepts exactly the records that have an `f` and not the value `c` there: it takes `{ f: c + 1 }` and rejects the record without `f`, so it is not lenient; with `true` for `false` it takes exactly what `f == c` does |
| `NestedWriteVisitor.Visitor.VisitAll` | packages/runtime/src/cross/nested-write-visitor.ts:114-134 | Visiting appends exactly the calls of the recursive walk, and throws exactly when the walk reads `where` of a nullish item |
| `NestedWriteVisitor.Visitor.DoVisit` | packages/runtime/src/cross/nested-write-visitor.ts:136-306 | The same for the payload of one action; terminates on every finite payload |
| `NestedWriteVisitor.Visitor.VisitSubPayload` | packages/runtime/src/cross/nested-write-visitor.ts:308-344 | The same for the fields of a nested payload or of each of its items |
| `NestedWriteVisitor.NestingPathsAreChains` | packages/runtime/src/cross/nested-write-visitor.ts:151-153 | The path of every call is a chain: it starts without a field, each further item's field is resolved on the model of the item before and has the item's own model as its type, and it ends at the model called with |
| `NestedWriteVisitor.MutationQuieter` | packages/runtime/src/cross/nested-write-visitor.ts:156-306 | Listening to fewer callbacks gives the same calls without the unheard ones, and throws in the same cases, except for top-level deletes that nobody hears |
| `EveryWriteOnce.EveryWriteIsCalledOnce` | packages/runtime/src/cross/nested-write-visitor.ts:136-344 | With every callback listening, a walk calls back at most once for every place in the payload that holds a write, nested at any depth, for no other place, and with the data that stands there, also if it throws on the way; a walk that does not throw calls back for all such places |
| `QueryAnalyzer.ReadVisitor.DoVisit` | packages/runtime/src/cross/nested-read-visitor.ts:20-55 | The field callback collects the model and all models that `select` or else `include` lead to, `_count` included |
| `QueryAnalyzer.FieldIsRead` | packages/runtime/src/cross/query-analyzer.ts:17-28 | What any selected relation field reads is read by the whole query |
| `QueryAnalyzer.MutationAnalyzer.CollectDeleteCascades` | packages/runtime/src/cross/query-analyzer.ts:83-100 | On every cascade graph, cycles included, each newly visited model has all its cascades collected and visited, and nothing outside a closed set is |
| `QueryAnalyzer.MutationAnalyzer.GetBaseRecursively` | packages/runtime/src/cross/query-analyzer.ts:102-110 | Adds exactly the strict ancestors of a model: what is reachable over base types from its bases, each once |
| `QueryAnalyzer.MutationAnalyzer.AddBases` | packages/runtime/src/cross/query-analyzer.ts:75-78 | Iterating the set while it grows closes it under bases |
| `QueryAnalyzer.MutationAnalyzer.GetMutatedModels` | packages/runtime/src/cross/query-analyzer.ts:33-81 | Terminates when base types are acyclic, and yields exactly what is reachable over base types from the mutated model, the visited models and everything cascade-reachable from visited deletes, each once |
| `Closure.ReachIsLeast` | packages/runtime/src/cross/query-analyzer.ts:83-110 | What paths from the roots end at is the least set that contains the roots and is closed under the graph |
| `Closure.ReachableIsReached` | packages/runtime/src/cross/query-analyzer.ts:83-110 | A model is in that set exactly if some path from a root ends at it |
| `Mutator.EventsKeep` | packages/runtime/src/cross/mutator.ts:62-136 | Callbacks keep the kind of the result; list items are old ones or marked `$optimistic`, and no relation field of a record is touched |
| `Mutator.UpdateKeeps` | packages/runtime/src/cross/mutator.ts:258-321 | An update applies to records only, marks them and leaves their relations alone |
| `CopyOnWrite.ApplyMutationOn` | packages/runtime/src/cross/mutator.ts:27-47 | On the heap: nothing reachable from the cached data is written, the value is that of the specification, there is no result where nothing applies, and the result shares with the cache whatever did not change: every list item and field of it, at any depth, is a cached tree, a new or assigned one, or again such a result, and what nothing applies to is there as the very same tree |
| `CopyOnWrite.DoApplyOn` | packages/runtime/src/cross/mutator.ts:49-192 | The same for every level; what nothing applies to is returned as the very same object |
| `CachedTrees.ListResultShares` | packages/runtime/src/cross/mutator.ts:129-162 | A list whose callbacks replaced, added or removed items and whose other items were then updated in turn shares with the cached list all that did not change |
| `CachedTrees.RecordResultShares` | packages/runtime/src/cross/mutator.ts:163-189 | A record with assigned fields whose relation fields were then updated in turn shares with the cached record all that did not change |
| `CopyOnWrite.ItemsOn` | packages/runtime/src/cross/mutator.ts:129-162 | The loop over a list makes a new array only if some item changed; items to which nothing applies, null and marked ones included, stay the same objects |
| `CopyOnWrite.FieldsOn` | packages/runtime/src/cross/mutator.ts:163-189 | The loop over a record makes a new object for each changed relation field; all other fields keep their objects |
| `CopyOnWrite.ApplyEventsOn` | packages/runtime/src/cross/mutator.ts:62-136 | Running the callbacks over the result so far, on shared objects, gives the value of the specification; every item is a cached one, or a new marked record over cached branches, and unaddressed items stay |
| `CopyOnWrite.UpdateMutateRef` | packages/runtime/src/cross/mutator.ts:258-321 | An update assigns to a clone made before the first assignment, and makes none if nothing applies |
| `CopyOnWrite.UpsertOn` | packages/runtime/src/cross/mutator.ts:323-375 | An upsert replaces the first record with the id by its update, or prepends a new record |
| `CopyOnWrite.DeleteOn` | packages/runtime/src/cross/mutator.ts:377-419 | A delete keeps exactly the unmatched items, in order, and reports whether some matched |
| `CopyOnWrite.MaxesOf` | packages/runtime/src/cross/mutator.ts:230-246 | The loop finds the largest id of the list for each id field |
| `Invalidation.PredicatesAgree` | packages/plugins/tanstack-query/src/runtime/common.ts:278-318 | The TanStack predicate accepts a query exactly if it reads a mutated model, and so does the SWR key filter |
| `Invalidation.ChangeHasCause` | packages/runtime/src/cross/mutator.ts:49-192 | If data that follows its query changes, some call was made for a model that the query reads |
| `Invalidation.ChangedIsInvalidated` | packages/plugins/tanstack-query/src/runtime/common.ts:278-318 | If the optimistic update changes a query's data, then the predicate computed from the same mutation accepts the query, and computing it does not throw |
| `Invalidation.ApplyFollows` | packages/runtime/src/cross/mutator.ts:49-192 | Optimistically updated data still follows the query's select and include |
| `Invalidation.OwnCallsAreFullCalls` | packages/runtime/src/cross/nested-write-visitor.ts:136-306 | What the mutator's visitor calls back, the analyzer's visitor calls back too |
| `CacheProtocol.StepKeepsInv` | packages/plugins/tanstack-query/src/runtime/common.ts:333-465 | Every step of any interleaving keeps: cached and half-read data follows its query, and each mutation whose writes it contains would invalidate it |
| `CacheProtocol.StepKeepsSafe` | packages/plugins/tanstack-query/src/runtime/common.ts:333-376 | With invalidation, every step keeps optimistic data owned by an unsettled mutation or marked for refetching |
| `CacheProtocol.RunsAreSafe` | packages/plugins/tanstack-query/src/runtime/common.ts:333-465 | So in every run of any number of mutations, reads, writes, responses, settlements, refetches and failed refetches |
| `CacheProtocol.NoResidueSurvives` | packages/plugins/tanstack-query/src/runtime/common.ts:361-375 | Once nothing is in flight, all optimistic data left in the cache is marked for refetching |
| `CacheProtocol.UnsafeRun` | packages/plugins/tanstack-query/src/runtime/common.ts:333-376 | Without an invalidation function there is a run after which optimistic data stays unmarked with nothing in flight |
| `CacheProtocol.SafeIffInvalidating` | packages/plugins/tanstack-query/src/runtime/common.ts:333-376 | Optimistic updates that change anything are safe in all runs if and only if mutations invalidate |
| `QueryClient.Client.OptimisticUpdate` | packages/plugins/tanstack-query/src/runtime/common.ts:379-465 | The undisturbed loop over the cache is a stretch of protocol steps from the start of `onMutate` to the request, or to the error where the payload throws |
| `QueryClient.Client.InvalidateQueries` | packages/plugins/tanstack-query/src/runtime/common.ts:278-308 | Invalidation marks exactly the entries whose queries read a mutated model, and none if the payload throws |
| `OptimisticLists.ScalarMutationIsOneCall` | packages/runtime/src/cross/nested-write-visitor.ts:114-134 | A top-level create, update, upsert or delete without nested writes is one call, with the payload's own arguments |
| `OptimisticLists.CreatePrepends` | packages/runtime/src/cross/mutator.ts:62-75 | On a list of flat records a create prepends one new record, once, although the visitor runs again on every item |
| `OptimisticLists.CreatedRecord` | packages/runtime/src/cross/mutator.ts:194-256 | The new record has every payload value under its field and the mark |
| `OptimisticLists.DeleteFilters` | packages/runtime/src/cross/mutator.ts:377-419 | A delete removes exactly the records with the id |
| `OptimisticLists.UpdateMaps` | packages/runtime/src/cross/mutator.ts:92-104 | An update changes every unmarked record with the id once, and no other; marked ones are passed over |
| `OptimisticLists.UpdatedRecord` | packages/runtime/src/cross/mutator.ts:258-321 | The updated record has the payload's values for known scalar fields and its old values elsewhere |
| `OptimisticLists.UpsertUpdatesOrPrepends` | packages/runtime/src/cross/mutator.ts:323-375 | With unique ids, an upsert updates the first match in place or prepends a new record, once |
| `OptimisticLists.NewIdIsNext` | packages/runtime/src/cross/mutator.ts:230-255 | A create without an id, of a numeric id field with `@default(autoincrement())` or no default, gets the largest id of the list plus one |
| `OptimisticLists.NewIdsAreFresh` | packages/runtime/src/cross/mutator.ts:230-255 | After any number of such creates each new id exceeds all ids behind it |
| `OptimisticLists.NewIdsStayDistinct` | packages/runtime/src/cross/mutator.ts:230-255 | So ids that were distinct stay distinct |
| `OptimisticLists.CreatesPrepend` | packages/runtime/src/cross/mutator.ts:62-75 | Any number of scalar create mutations, optimistically applied one after the other to a list of flat records, prepend their new records in turn |
| `OptimisticLists.CreatesKeepIdsDistinct` | packages/runtime/src/cross/mutator.ts:230-255 | So create mutations without ids, applied to a list with distinct ids, leave the old list behind the new records and all ids distinct |
| `OptimisticLists.EmptyListHasNoNextId` | packages/runtime/src/cross/mutator.ts:235-243 | On an empty list the temporary id is minus infinity |
| `Hierarchy.GetRecursiveBases` | packages/sdk/src/utils.ts:552-573 | The recursion with its shared `seen` set computes the pre-order walk, on cyclic hierarchies too |
| `Hierarchy.BasesCountEdges` | packages/sdk/src/utils.ts:552-573 | The walk expands each ancestor once, so a base is listed exactly as often as reachable models extend it |
| `Hierarchy.DiamondListsItsTopTwice` | packages/sdk/src/utils.ts:552-573 | The top of a diamond is listed twice |
| `Hierarchy.ValidateInheritance` | packages/schema/src/language-server/validator/datamodel-validator.ts:415-434 | The breadth-first check accepts a model if and only if the model and its recursive bases are all different: it rejects diamonds as well as cycles |
| `Hierarchy.BasesAreRecursive` | packages/sdk/src/utils.ts:552-573 | Where the check accepts, the bases are the super types, each followed by the bases it has on its own, and the check accepts those too |
| `Hierarchy.ChainIsBetween` | packages/sdk/src/utils.ts:623-639 | There, the inheritance chain to a base exists for every base and consists of exactly the models between the two |
| `BaseMerge.MergeOneIs` | packages/schema/src/utils/ast-utils.ts:59-77 | One turn gives a model the fields and attributes that its ancestors declare, root first, then its own, whether or not the ancestors are merged already |
| `BaseMerge.OrderDoesNotMatter` | packages/schema/src/utils/ast-utils.ts:56-78 | After the loop every model shows its ancestors' own fields root first and then its own, and the attributes likewise, whatever the declaration order |
| `MergedModels.MergedIsRecursive` | packages/schema/src/utils/ast-utils.ts:62-68 | A merged model shows the fields of its merged super types, the last one's first, and then its own: copying own fields of all ancestors equals copying whole super types |
| `MergedModels.InheritedAttributeIff` | packages/schema/src/utils/ast-utils.ts:94-137 | An attribute of a base is inherited if and only if it is not `@@delegate` or `@@map`, is no key or index attribute with a delegate at the base or between, and is no `@@schema` that the model has itself |
| `MergedModels.InheritedAttributesAre` | packages/schema/src/utils/ast-utils.ts:70-73 | The inherited attributes are the clones of exactly those |
| `MergedModels.OriginIsDeclarer` | packages/schema/src/utils/ast-utils.ts:139-160 | A field counts as inherited from its declarer, at any time of the loop, if the declarer is a delegate or no delegate lies between |
| `MergedModels.OriginIsStableIff` | packages/schema/src/utils/ast-utils.ts:139-160 | Only then: the origin is the same before and after all bases are merged if and only if the declarer is a delegate or no delegate lies between |
| `MergedModels.OriginDependsOnOrder` | packages/schema/src/utils/ast-utils.ts:148-151 | For a model under a delegate under an abstract model with a field, the declaration order decides the field's origin |
| `SchemaMerger.Model.MergeBases` | packages/schema/src/utils/ast-utils.ts:60-77 | In place: one turn changes one model's fields, attributes and flag, to those of the specification |
| `SchemaMerger.Model.RemoveAbstract` | packages/schema/src/utils/ast-utils.ts:79-91 | In place: abstract models leave the declarations, super types that are no delegates leave the remaining models, members stay |
| `SchemaMerger.Model.MergeBaseModels` | packages/schema/src/utils/ast-utils.ts:56-91 | In place: the members of all models are those of the loop's schema, in which every model is merged |
| `SchemaMerger.ResultIsMerged` | packages/schema/src/utils/ast-utils.ts:56-91 | The loop's schema has every model in its merged form |
| `OpenApiPrune.CollectUsedComponents` | packages/plugins/openapi/src/generator-base.ts:133-155 | Adds exactly the last segments of all `$ref` values anywhere in the value |
| `OpenApiPrune.Components.CloseOver` | packages/plugins/openapi/src/generator-base.ts:110-122 | The worklist terminates with a set closed under references between the roots and every closed bound |
| `OpenApiPrune.Components.PruneComponents` | packages/plugins/openapi/src/generator-base.ts:102-131 | Keeps, in order, exactly the schemas reachable through references from the paths |
| `OpenApiPrune.PruneTwice` | packages/plugins/openapi/src/generator-base.ts:102-131 | Pruning twice equals pruning once |
| `OpenApiPrune.NoReferenceDangles` | packages/plugins/openapi/src/generator-base.ts:102-131 | A reference from the paths or from what remains leads to a schema exactly if it did before |
| `OpenApiPrune.PruningIsMaximal` | packages/plugins/openapi/src/generator-base.ts:102-131 | Every set of names that would leave no dangling reference contains all that is kept |
| `Imports.EagerLoader.EagerLoadAllImports` | packages/schema/src/cli/cli-util.ts:146-168 | On every import graph, cycles and self-imports included, returns exactly the documents reachable from the start, except the start |
| `Imports.ImportResolver.ResolveTransitiveImports` | packages/schema/src/utils/ast-utils.ts:198-223 | The same set, given that lower-case paths identify the reachable documents |
| `SimpleTraverse.Traverser.Walker` | packages/runtime/src/local-helpers/simple-traverse.ts:16-57 | Terminates on cyclic heaps, makes the calls of the specification and leaves the path and parent stacks as they were |
| `SimpleTraverse.EveryPathOnce` | packages/runtime/src/local-helpers/simple-traverse.ts:12-61 | A path is visited once if it leads somewhere and leaves no object twice, else never; each call reports the value that its path leads to |
| `SimpleTraverse.Traverse` | packages/runtime/src/local-helpers/simple-traverse.ts:12-61 | The same of the calls made for a root in any closed heap |
| `IdFields.GetUniqueConstraints` | packages/sdk/src/model-meta-generator.ts:378-435 | The four loops collect the constraints strongest first, each name with its first fields |
| `IdFields.NamesOnce` | packages/sdk/src/model-meta-generator.ts:398-402 | No two constraints have the same name, and every name is there |
| `IdFields.RuntimeIdsAreFirst` | packages/runtime/src/cross/utils.ts:52-64 | The runtime id is the first constraint if and only if every constraint named like the least array index has the first one's fields |
| `IdFields.RuntimeIdsByName` | packages/runtime/src/cross/utils.ts:52-64 | In terms of the schema: the runtime id is the first constraint if and only if no `@@id` or `@@unique` has an array index for its `name`, or the first one with the least such name has the fields of the first constraint |
| `IdFields.IndexNameOvertakes` | packages/runtime/src/cross/utils.ts:52-64 | An input: a unique key named like an array index becomes the runtime id in place of the `@id` field |
| `IdFields.RuntimeAgreesIff` | packages/sdk/src/utils.ts:255-290 | The fields that count as id fields in the schema are the runtime id fields if and only if, where array indices name constraints, the one with the least index has just those fields, and elsewhere the model has one kind of id, as the next row says |
| `IdFields.IdsAgreeIff` | packages/sdk/src/utils.ts:255-290 | The fields that count as id fields in the schema are those of the first constraint if and only if there is one `@id` and no `@@id` beyond it, or a first `@@id` with fields, or no id at all, or an empty `@@id` over no unique key |
| `IdFields.ValidatedAgree` | packages/schema/src/language-server/validator/datamodel-validator.ts:42-70 | Of the models that validation accepts, exactly those with an empty first `@@id` and no `@id` disagree |
| `ReverseEnumeration.JsList.EnumerateReverse` | packages/runtime/src/cross/nested-write-visitor.ts:346-356 | Under any callback that deletes the current element or nothing, every original element is yielded once, last first, and the undeleted ones remain in order |

## Left out

- Lexing, whitespace, string escaping, keywords used as names and quoted object keys: printing and parsing are on tokens.
- Langium services: references are resolved, cross-references carry names.
- `now`, `check`, `currentModel` and `currentOperation` in compiled rules, and object expressions, which the compiler rejects.
- CompiledMeaning: does not cover relations of anything but numbers, which are whole in the model, searches for texts that are not literals, and equalities and searches between scalars of different types, where JavaScript turns values into numbers or text; nor list functions other than `has`, which would add similar members; for equalities, relations and searches that are not settled, `EqualityIff`, `RelationIff` and `SearchIff` say when each is right on its own.
- SearchIff: searches for dates and the like in lists, which compare object identities as equalities do, and `Json` fields, which may hold anything, are not modelled.
- PartialInputIsAccepted: a record leaves out whole fields, not parts of nested values.
- JavaScript operator precedence in the emitted text: the target is a tree.
- `encryption/*`, HTTP, hooks and contexts of the client libraries, logging.
- A custom `optimisticDataProvider`, removal of queries from the cache, and writes by code outside the protocol.
- `Date` values, lists directly inside lists (their items never match an id), null items when the largest id of a list is computed, and `connect` payloads that are not objects, on which `in` throws.
- The visitor's plain-field callback, `parent` contexts and callbacks that return a replacement payload or stop the walk; nested write payloads that are strings or lists in place of an object.
- GetMutatedModels: requires acyclic base types, because `getBaseRecursively` does not end on a cycle; `lowerCaseFirst` is taken to be injective on model names.
- OptimisticUpdate: models the loop undisturbed; interleaved with other mutations it is the protocol's separate steps.
- CollectUsedComponents: a `$ref` value that is no string names nothing; the code throws on it.
- ResolveTransitiveImports: requires that reachable documents differ in their lower-case paths, because otherwise one of them is taken for the other.
- SimpleTraverse.Traverse: the callback does not call `update`.
- MergeBaseModels: requires a validated hierarchy, because `getInheritanceChain` does not end on a cycle; `linkContentToContainer` and the cloning of syntax trees below fields and attributes are not modelled.
- IdsAgreeIff: `fields` is always given, as the declarations of `@@id` and `@@unique` require.
- Generators, CLI, plugins, telemetry, server adapters, `analyzePolicies`, `smartUnion`: they would only add easy members.
