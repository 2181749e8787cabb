# A verified model of a GraphQL engine

This project models the parts of a GraphQL engine written in Go that hold its hard logic, and proves what they are for.
Code that changes things step by step is modelled by classes and methods with loops, each proved against a pure
definition; the theorems are about these definitions.

| part | files |
|---|---|
| documents, order, options | `Query`, `Evaluation`, `Ordering`, `Wrappers` |
| executor: collecting fields, streaming with truncation | `LinkedMap`, `ExecutionSpec`, `Flattening`, `ResponseTree`, `Responses`, `ResponseText`, `LeafLists`, `Execution`, `ExecutionDepth`, `RepeatedSpreads` |
| asynchronous resolvers and the copy-on-write cache | `Limiter`, `Cache` |
| WebSocket client, and client with server over two wires | `WsClient`, `WsProtocol` |
| validator: fragment cycles, depth, overlapping fields, variable positions, suggestions | `FragmentCycles`, `FragmentDepth`, `MaxDepth`, `DepthWalk`, `Symbols`, `OverlapSpec`, `OverlapPlaces`, `Overlap`, `TypeUse`, `EditDistance` |
| copying types between schemas | `TypeClosure` |
| fields of embedded structs | `DominantFields`, `StructFields`, `FieldNames`, `StructSearch`, `TypeFields` |
| scanner over a buffer, and its tokens | `Utf8`, `ScannerSpec`, `Scanner`, `ScannerPositions`, `ScannerRuns`, `ScannerLocality`, `NumberTokens`, `TokenKinds`, `StringFaults`, `TokenStream` |
| parser, all that it accepts, and the round trip of tokens | `Syntax`, `Parser`, `Spelling`, `Accepted`, `FullWriting`, `Printing`, `RoundTrip`, `Unprintable`, `Parsed`, `Taken`, `ObjectLiterals` |
| formatter, and the round trip of text | `Indentation`, `PrintedText`, `Formatter`, `Reading`, `TextScan`, `IndentedDocument`, `HungLexemes`, `PrintedTokens`, `FlatDocument`, `TextRoundTrip`, `LostLiterals` |

Resolvers, casts, JSON encoding of leaves, identifier characters and valid tags are parameters: arbitrary functions, so
that every statement holds for all of them. The round trip of text asks one thing of identifier characters, which the
scanner's own satisfy: among ASCII they are letters, digits and the underscore, and no digit comes first.

`dafny verify dfyconfig.toml` checks the whole project.

## What the proofs found

Where the code does not do what its documentation or the GraphQL specification says, the model follows the code:

- A list that stands directly inside a list is written with the wrong element type, so that a response field of a type
  such as `[[Int]]` is dropped unless every inner list is empty; `[[Int]!]` is written as it should be
  (`LeafLists.WrittenAsMeantIff`, with the condition for every list type).
- A list that stands in a list behind a non-null mark is written as an object if something is selected under it, as in
  `[[Hero]!]` (`Responses.ListWrittenAsObject`; `Responses.MemberIsAllowed` has the exact condition).
- An element of a list of non-null leaves that is given as a pointer to a number or a string, and not as the number or
  string, panics though it is not nil (`internal/exec/execution.go:444`). The theorem above takes such values not to be
  of the type.
- A `MaxParallelism` below two deadlocks (`Limiter.SafeIffTwo`).
- An empty string literal leaves a quote as look-ahead, so that a string token that is not there follows
  (`ScannerRuns.ScanReached`, `ScannerRuns.EmptyLiteralIsFollowedByAnother`).
- The first character of a string literal is not looked at: a line feed there is missed, and so is a backslash, which
  matters exactly if the backslashes there lead to a quote (`ScannerRuns.FirstCharacterUnseen`, with
  `ScannerRuns.EscapedQuoteEndsLiteral` and `ScannerRuns.LineFeedStartsLiteral` as examples).
- Besides untyped inline fragments, empty selection sets and directives on variables, three more kinds of documents do
  not survive printing: an operation with variables whose last directive has an empty argument list, because the parser
  wants directives before variables and takes the parenthesis for the directive's arguments; a document with a string
  of several lines in a selection set, because the formatter indents it; both are in
  `TextRoundTrip.TextComesBackIff`, which is exact for all sources without an empty string literal. The third is a
  document with an empty string literal in a list: the quote it leaves behind takes the comma that the formatter
  writes for the start of a string (`LostLiterals.EmptyStringLost`).
- Fields that differ only in the variables in their arguments are taken to be alike, because variables are evaluated as
  null; `Overlap.OverlapValidator.Validate` and `OverlapSpec.FineSighted` say exactly when that makes a difference, and
  `OverlapSpec.VariablesAreNotCompared` gives two such fields.
- The check of the depth does not end on a fragment that spreads itself outside any field, unless it meets a field that
  is too deep before (`DepthWalk.EndsIff`, the exact condition for every document; `DepthWalk.SelfSpreadNeverEnds` and
  `DepthWalk.CycleAfterDeepField` are examples).
- The search for fields of embedded structs keeps a field that Go's rules hide, when its struct lies below a struct
  that is embedded twice (`StructFields.VisibleIff`, `StructFields.HiddenFieldSurvives`).
- An object that is copied into another schema leaves the interfaces it implements behind
  (`TypeClosure.InterfaceStaysBehind`).
- An empty source is reported at line 0, column 0 (`ScannerPositions.EmptySourceHasNoPlace`); positions are stated for
  sources that are not empty.

## Model

| member | source | states |
|---|---|---|
| `LinkedMap.LinkedMap.Get` | internal/linkedmap/linkedmap.go:19-25 | a key is found exactly if it was set, and gives the value last set for it |
| `LinkedMap.LinkedMap.Set` | internal/linkedmap/linkedmap.go:27-46 | a new key goes to the end of the chain of entries, a known one keeps its place; map and chain stay in step |
| `Execution.Execution.ResolveField` | internal/exec/execution.go:119-169 | one field met: its sub-selections join the field of its alias, or it is put last in the map if it resolves, or it is reported |
| `Execution.Execution.ResolveFields` | internal/exec/execution.go:113-186 | walking a selection set leaves the map with the fields collected from its depth-first flattening, and reports those that did not resolve |
| `Execution.Execution.ResolveFragment` | internal/exec/execution.go:188-197 | a fragment contributes exactly if its type is the parent's or the parent can be cast to it |
| `ExecutionSpec.CollectedIsInOrder` | internal/exec/execution.go:113-186 | the fields collected are the response keys in order of first occurrence among those that resolve, each with its first resolution and all its sub-selections joined |
| `ExecutionSpec.MissingIsUnresolved` | internal/exec/execution.go:154-161 | the errors of collection are the occurrences without a resolver whose alias was not taken before, in order |
| `ExecutionSpec.AliasesDiffer` | internal/exec/execution.go:119-169 | no two fields of a response object have the same key |
| `Flattening.FlattenIsByRoute` | internal/exec/execution.go:113-197 | the fields met are exactly those that some route through selections not skipped and fragments that apply leads to, in the order of the routes |
| `Execution.Execution.RecursiveExecute` | internal/exec/execution.go:289-313 | writing fields with truncation appends exactly the object of the fields that survive, with commas only between them, and every error once, inner before outer |
| `Execution.Execution.WriteField` | internal/exec/execution.go:293-311 | a field that fails leaves the buffer as it was before its comma, and its error after the errors inside it |
| `Execution.Execution.ExecuteSelected` | internal/exec/execution.go:318-396 | a field is written as its key and a value that fits it: null exactly for a nil under a type that allows null; or it fails, with the resolver's error, for a nil under a non-null type, or with a panic below; what was written before it stays |
| `Execution.Execution.WriteObject` | internal/exec/execution.go:385-393 | a nested object is collected into a fresh map and written, whatever its depth |
| `Execution.Execution.WriteList` | internal/exec/execution.go:406-439 | a list is written element by element, lists inside it likewise; a value that is no list panics after nothing, or part, of it was written |
| `Execution.Execution.WriteLeaf` | internal/exec/execution.go:441-476 | a leaf is written by its type; what it cannot encode panics |
| `Execution.Execution.Execute` | internal/exec/execution.go:199-243 | a query or mutation answers with the text of the response that fits the resolvers' outcomes and the fields' types, and with exactly the errors that belong to it, in the tree's order |
| `ResponseTree.FailureIsReported` | internal/exec/execution.go:299-311 | a field is missing from the object exactly if it failed, and then its error directly follows those inside it |
| `Responses.ObjectIff` | internal/exec/execution.go:289-396 | told from outcomes and types, at every depth: a response fits exactly if it is the tree without its failed fields; it has a member for each collected field that does not fail, in order, and no others, and null exactly where a nil is allowed |
| `Responses.ErrorsIff` | internal/exec/execution.go:289-396 | an error is in the list exactly if a field met has no resolver, or a field fails at that place, at any depth, lists being written up to the first element that panics |
| `Responses.FieldIsAnswered` | internal/exec/execution.go:318-396 | a collected field is missing from the response exactly if its resolver failed, it was nil under a non-null type, or writing it panicked; it is null exactly if it is nil under another type; the errors at its place say just that |
| `Responses.MemberIsAllowed` | internal/exec/execution.go:354-396 | the value of every member is one its field's type allows, null only where the type does; exact for lists of objects, the exception being lists behind a non-null mark in a list |
| `Responses.ListWrittenAsObject` | internal/exec/execution.go:421-433 | a list inside a list of type [[Hero]!] is written as an object |
| `ResponseText.TextIsRead` | internal/exec/execution.go:289-313 | the text of every response is JSON: read from the left it gives the response, if the encodings of leaves are JSON and every field has a value |
| `ResponseText.ScalarReads` | internal/exec/execution.go:448-465 | numbers, words and strings in quotes are such encodings |
| `LeafLists.WrittenAsMeantIff` | internal/exec/execution.go:441-476 | for every type of lists of leaves and every value of its shape: it is written as its type means it exactly if no leaf lies in a list that stands directly inside a list; there the outer element type is used for the innermost values |
| `ExecutionDepth.ObjectAnyDepth` | internal/exec/execution.go:113-186 | the tree does not depend on the bound that makes its definition terminate |
| `RepeatedSpreads.RepeatedSpreadIsRedundant` | internal/exec/execution.go:166-184 | where, with one spread, all fields met are found, spreading the fragment again in the selection set gives the same tree, errors included, at every depth |
| `RepeatedSpreads.VisitedSelectionIsRedundant` | internal/exec/execution.go:166-197 | where all fields met are found without it, any selection whose fields were all met before changes nothing |
| `RepeatedSpreads.SameTreeIfSameFields` | internal/exec/execution.go:113-186 | where all fields met are found, the tree depends only on which fields the flattening meets and in which order it meets them first |
| `Limiter.TokensCountRunning` | resolvers/async.go:8-44 | in every run the tokens are the resolvers running, and one for the executor while it works; never more than the limit |
| `Limiter.ResolutionsReturnTheirResults` | resolvers/async.go:20-43 | each Resolution yields the result of its own resolver |
| `Limiter.LimiterIsEmptyAfterwards` | internal/exec/execution.go:205-242 | after Execute the tokens left are those of resolutions nobody executed |
| `Limiter.SafeIffTwo` | resolvers/async.go:14-41 | no reachable state is deadlocked exactly if MaxParallelism is at least two |
| `Limiter.NeverStuck` | resolvers/async.go:14-41 | with a limit of two or more something can always happen |
| `Limiter.WaitingEnds` | resolvers/async.go:14-41 | while the executor waits the resolvers have a bounded number of moves, in whatever order, and where they have no more the executor can go on |
| `Cache.CallsAgree` | resolvers/cache.go:13-35 | in every interleaving each call that returned gave create(key), and every snapshot agrees with create |
| `Cache.KeysAreKept` | resolvers/cache.go:19-34 | keys of snapshots only grow, and the key of a call that returned is in the current and every later snapshot |
| `WsClient.WsConnection.ServiceOpenOperation` | httpgql/ws-client.go:214-236 | a new stream gets the next id and an open channel of its own; a failed request gets one error on a channel that is then closed |
| `WsClient.WsConnection.ServiceRead` | httpgql/ws-client.go:267-299 | data goes to the channel of its id, complete closes it; an unknown id or a connection error fails every stream, for its own reason |
| `WsClient.WsConnection.ServiceOperation` | httpgql/ws-client.go:301-308 | an id that is not live fails the connection |
| `WsClient.WsConnection.ServiceError` | httpgql/ws-client.go:256-265 | every live channel gets the error and is closed, once; no stream is left |
| `WsClient.WsConnection.ServiceCloseOperation` | httpgql/ws-client.go:242-254 | a stop message is written for a live stream, and nothing else changes |
| `WsClient.WsConnection.OwnChannels` | httpgql/ws-client.go:144-165 | ids of live streams are below nextStreamId, match their operation, own distinct channels, and these are open |
| `WsClient.WsConnection.Service` | httpgql/ws-client.go:167-192 | after the loop every channel has the history that the requests give it: the responses sent for its stream up to the first thing that ends it, and one failure that tells why if that is a break, or the failure of its own opening; the messages written are the starts of the streams taken up and the stops of those live |
| `WsClient.ChannelsOnlyGrow` | httpgql/ws-client.go:144-165 | over every sequence of commands what a channel got stays, and a closed channel gets nothing more |
| `WsClient.BreakEndsAll` | httpgql/ws-client.go:256-308 | after a connection error, a message for an id that is not live, or a failure to read, no stream is live; each channel that was live got one failure that tells why, every other nothing |
| `WsClient.NothingElse` | httpgql/ws-client.go:167-308 | nothing else closes a channel or puts a failure into it: complete closes the one of its id, data adds to the one of its id, and a new stream gets the next id and an empty open channel, or the failure of its own opening |
| `WsClient.StreamIsTold` | httpgql/ws-client.go:167-308 | over every run a live stream gets the responses sent for it until the first command that ends it, and then one failure with that command's reason, or none after complete |
| `WsClient.RunIsTold` | httpgql/ws-client.go:144-308 | the same for every stream of every run, from its opening on |
| `WsProtocol.Delivery` | httpgql/ws-server.go:99-124 | in every interleaving, for each stream: delivered, in flight, held and queued responses make up the handler's output; a closed channel got all of it in order |
| `WsProtocol.NoInvalidOperationId` | httpgql/ws-client.go:301-308 | without transport failure the client never meets an id it does not know |
| `WsProtocol.NoDeadlock` | httpgql/ws-server.go:99-124 | unless everything is delivered, client, server or a goroutine can move |
| `WsProtocol.InternalMovesRunOut` | httpgql/ws-server.go:99-124 | internal moves end in whatever order, and where they end everything produced has been delivered |
| `WsProtocol.CanDrain` | httpgql/ws-server.go:99-124 | from every reachable state everything produced can be delivered |
| `WsProtocol.StopIsServed` | httpgql/ws-server.go:126-132 | once the server has read everything, the streams it has cancelled before they finished are exactly those that the application asked to end while they ran |
| `FragmentCycles.CycleDetector.DetectFragmentCycle` | internal/validation/validation.go:373-377 | the search ends; what it reports are cycles, and without report every fragment spread below has a rank |
| `FragmentCycles.CycleDetector.DetectFragmentSpread` | internal/validation/validation.go:388-423 | a spread that closes the current path is reported as exactly the cycle it closes; an unknown fragment, or one visited before, adds nothing; any other becomes visited |
| `FragmentCycles.CycleDetector.Validate` | internal/validation/validation.go:124-144 | a fragment on another type is reported and not walked; no cycle reported means that ranks descend along every spread from the others |
| `FragmentCycles.DetectCycles` | internal/validation/validation.go:124-144 | exactly the fragments not on composite types are reported as such; cycles are reported exactly if the others lead to one, and each reported is one; where all are on composite types nothing is reported exactly if the fragment graph is acyclic |
| `FragmentCycles.RankedIsAcyclic` | internal/validation/validation.go:373-417 | fragments with descending ranks spread themselves nowhere |
| `FragmentDepth.AcyclicIsBounded` | internal/validation/validation.go:138-142 | a document that passed can be executed: expanding its fragments ends, with a bound from ranks and nesting |
| `MaxDepth.DepthValidator.ValidateMaxDepth` | internal/validation/validation.go:172-207 | wherever the walk ends, the answer is whether some path of fields is longer than the limit, despite the short cuts, and it is yes exactly if a field was reported |
| `MaxDepth.ExceedsMaxDepth` | internal/validation/validation.go:77-79 | an operation exceeds a positive limit exactly if its expanded selections have a longer path of fields, and a limit of zero never |
| `DepthWalk.EndsIff` | internal/validation/validation.go:172-207 | on every document and with a positive limit: the walk ends exactly if every cycle among the fragments the operation reaches passes through a field, or a path that is too deep is met before anything but harmless selections |
| `DepthWalk.PassedBreaksCycles` | internal/validation/validation.go:172-207 | in a document that the check lets pass every cycle among the fragments reached passes through a field |
| `DepthWalk.ShallowEndsIff` | internal/validation/validation.go:172-207 | where no path is too deep the walk ends exactly if every cycle among the fragments reached passes through a field |
| `DepthWalk.SelfSpreadNeverEnds` | internal/validation/validation.go:199-202 | with a positive limit the walk does not end on a fragment that spreads itself outside any field |
| `DepthWalk.CycleAfterDeepField` | internal/validation/validation.go:191-202 | behind a field that is too deep such a fragment is not entered, and the walk ends |
| `MaxDepth.DeeperBySelection` | internal/validation/validation.go:181-203 | a path too long is found under one of the selections, spreads counting no level of their own |
| `OverlapSpec.CompatibleIffSameShape` | internal/validation/validation.go:859-877 | types are compatible exactly if lists, non-nulls and leaf types agree layer by layer, composite types being alike |
| `OverlapPlaces.SameShapeIff` | internal/validation/validation.go:859-877 | types have the same shape exactly if they allow the same values in a response, as far as lists and nulls go, and have the same scalar or enum inside |
| `OverlapPlaces.FineIff` | internal/validation/validation.go:492-525 | a selection set with all below it can be merged exactly if no two fields to which the same keys lead clash by the types, names and arguments written there |
| `OverlapSpec.ArgumentsConflictIff` | internal/validation/validation.go:527-538 | with unique names arguments conflict exactly if they give different values by name, in whatever order |
| `OverlapSpec.ConflictMeansDifferent` | internal/validation/validation.go:527-538 | arguments that conflict differ under some values of the variables; the comparison is right exactly if arguments alike with null for every variable are alike with the variables left open |
| `OverlapSpec.SameArgumentsIff` | internal/validation/validation.go:527-538 | arguments give the same values by name whatever the variables are exactly if they do with the variables left open |
| `OverlapSpec.FineSighted` | internal/validation/validation.go:492-525 | fields found mergeable with null for every variable can be merged for all values exactly if no pair compared is alike only for null |
| `OverlapSpec.VariablesAreNotCompared` | internal/validation/validation.go:533 | two fields alike but for the variable in their argument pass the check, though they can be merged only if it is the same variable |
| `OverlapSpec.ExplainedDoNotMerge` | internal/validation/validation.go:492-525 | two fields with a reported reason cannot be merged |
| `OverlapSpec.MergeableIsSymmetric` | internal/validation/validation.go:436-438 | whether two fields merge does not depend on their order, so that both orders of a pair may be remembered |
| `Overlap.OverlapValidator.ValidateOverlap` | internal/validation/validation.go:429-490 | ends on every document; without spreads a pair compared or remembered merges, with null for every variable, unless a conflict was reported, and every report names two fields that clash |
| `Overlap.OverlapValidator.ValidateFieldOverlap` | internal/validation/validation.go:492-525 | without spreads no reason is given exactly where two fields merge or an earlier report stands; each reason given explains a clash |
| `Overlap.OverlapValidator.OverlapFields` | internal/validation/validation.go:442-457 | the fields are reported in the order they are written, as an error or as a reason for the caller |
| `Overlap.OverlapValidator.ValidateSelectionSet` | internal/validation/validation.go:209-219 | a selection set is checked below first, then pair by pair; nothing is reported for a set that can be merged |
| `Overlap.OverlapValidator.Validate` | internal/validation/validation.go:113-139 | without named spreads and with unique argument names: an error is reported exactly if in some selection set two fields at the same place clash with null for every variable, each error names two fields that clash, and all sets can be merged for all values of the variables exactly if no error is reported and no pair compared is alike only for null; with spreads the comparison still ends |
| `Evaluation.VariablesDoNotMatter` | schema/literals.go:71-199 | a literal without variables evaluates alike whatever the variables are |
| `TypeUse.UsableIffValuesFit` | internal/validation/validation.go:879-903 | a variable's type can be used at a position exactly if each of its values is a value of the position's type |
| `TypeUse.UsableIsReflexive` | internal/validation/validation.go:879-903 | every type can be used as itself |
| `TypeUse.UsableIsTransitive` | internal/validation/validation.go:879-903 | use is transitive |
| `TypeUse.UsableBothWays` | internal/validation/validation.go:879-903 | types usable as each other are the same |
| `EditDistance.LevenshteinDistance` | internal/validation/suggestion.go:39-57 | the one-column loop gives the edit distance of the two texts |
| `EditDistance.NoScriptIsCheaper` | internal/validation/suggestion.go:39-57 | no edit script costs less than the distance |
| `EditDistance.CheapestScript` | internal/validation/suggestion.go:39-57 | some edit script costs just the distance |
| `EditDistance.DistanceIsShortestSequence` | internal/validation/suggestion.go:39-57 | a sequence of single edits of that length leads from one text to the other |
| `EditDistance.NoSequenceIsShorter` | internal/validation/suggestion.go:39-57 | no sequence of single edits is shorter |
| `EditDistance.Symmetric` | internal/validation/suggestion.go:39-57 | the distance is symmetric |
| `EditDistance.Triangle` | internal/validation/suggestion.go:39-57 | the distance satisfies the triangle inequality |
| `EditDistance.ZeroMeansEqual` | internal/validation/suggestion.go:39-57 | the distance is zero exactly for equal texts |
| `EditDistance.DistanceBounds` | internal/validation/suggestion.go:39-57 | the distance is between the difference of the lengths and the longer length |
| `EditDistance.SelectSuggestions` | internal/validation/suggestion.go:10-37 | the suggestions are all options within the threshold, nearest first |
| `EditDistance.CloseIff` | internal/validation/suggestion.go:14-19 | an option is suggested exactly if it is the input, or its distance and one more are at most half of either text |
| `EditDistance.CloseByLength` | internal/validation/suggestion.go:12-21 | an option whose length differs too much is never suggested |
| `TypeClosure.Schema.AddDirectives` | schema/type_add_if_missing.go:32-40 | directives without an entry get what the source schema declares, perhaps nil; others stay |
| `TypeClosure.Schema.AddType` | schema/type_add_if_missing.go:24-109 | a type whose name is free is added with all it needs, one whose name is taken stops the walk; this ends on cyclic type graphs |
| `TypeClosure.Schema.AddFields` | schema/type_add_if_missing.go:50-60 | the types and directives of fields and their arguments are added |
| `TypeClosure.Schema.AddIfMissing` | schema/type_add_if_missing.go:24-113 | the types added are exactly those reachable along paths that avoid the names present; nothing present changes; every type added has all types its fields, arguments and members need; a directive's entry is what it was, or what the source declares if a type added carries it and it had no value |
| `TypeClosure.AddedIffReachable` | schema/type_add_if_missing.go:24-113 | a type was added exactly if a path through absent types leads to it |
| `TypeClosure.PathIsAdded` | schema/type_add_if_missing.go:24-113 | everything on such a path was added |
| `TypeClosure.SuccessorsIff` | schema/type_add_if_missing.go:24-101 | a type leads to those that its fields, its fields' arguments and its input fields are of, through lists and non-nulls, and a union to its members |
| `TypeClosure.DirectivesIff` | schema/type_add_if_missing.go:24-113 | the directives taken along are those at the type, its fields, their arguments, its input fields and its enum values |
| `TypeClosure.EntriesAreRight` | schema/type_add_if_missing.go:32-40 | what becomes of each directive's entry when types were added |
| `TypeClosure.InterfaceStaysBehind` | schema/type_add_if_missing.go:42-48 | an object is copied without the interface it implements |
| `DominantFields.DominantField` | resolvers/field_resolver_reflect.go:242-272 | gives the one field of a name that survives, if one does |
| `DominantFields.Annihilate` | resolvers/field_resolver_reflect.go:164-189 | the compaction in place, reading ahead of where it writes, leaves exactly the survivors in order |
| `DominantFields.SurvivesIff` | resolvers/field_resolver_reflect.go:236-272 | a field survives exactly if it is the only tagged one among the shallowest of its name, or none of them is tagged and it is alone |
| `DominantFields.SurvivorsHaveDistinctNames` | resolvers/field_resolver_reflect.go:164-189 | each name survives at most once |
| `DominantFields.SurvivesWhateverTheOrder` | resolvers/field_resolver_reflect.go:144-189 | which fields survive depends on the candidates, not on how equal ones are sorted |
| `StructSearch.ScanStruct` | resolvers/field_resolver_reflect.go:62-141 | one struct adds exactly its own fields, under the name the tag gives before its first comma or else their own, twice if it was queued more than once, and queues its embedded structs once each, counting how often |
| `StructSearch.SearchLevel` | resolvers/field_resolver_reflect.go:53-142 | one level of the search keeps counts and queues in step and visits no struct twice |
| `StructSearch.CollectFields` | resolvers/field_resolver_reflect.go:38-142 | the search ends on structs that embed themselves, and reaches each struct by the level of its shortest path |
| `FieldNames.NameIsBeforeComma` | resolvers/field_resolver_reflect.go:198-203 | the name in a tag is its part before the first comma, all of it if there is none |
| `FieldNames.FieldIsTreated` | resolvers/field_resolver_reflect.go:62-141 | from its flags, its type and the text of its tag: a field is passed over, recorded under the tag's name, recorded under its own, or opened |
| `FieldNames.FieldOfIff` | resolvers/field_resolver_reflect.go:38-142 | the fields to be recorded are those at the end of a chain of embedded structs |
| `FieldNames.HandedOut` | resolvers/field_resolver_reflect.go:37-192 | what survives is a field of the struct, and what Go's rule promotes survives |
| `TypeFields.SearchCollects` | resolvers/field_resolver_reflect.go:38-142 | the candidates are the fields of all structs reachable, each along one shortest path, twice exactly if two embedded fields end shortest paths to its struct |
| `TypeFields.VisibleFields` | resolvers/field_resolver_reflect.go:37-192 | the fields handed out are exactly the candidates that survive, each name once, in strictly increasing order of index; each is a field of the struct under the name that its tag gives it or else its own, and every field that Go's rule promotes is handed out |
| `StructFields.SurvivorIsShallowest` | resolvers/field_resolver_reflect.go:161-189 | no field of the name, at any depth, is shallower than the survivor |
| `StructFields.VisibleIff` | resolvers/field_resolver_reflect.go:161-162 | a field is visible by Go's embedding rules exactly if it survives and one shortest path leads to its struct |
| `StructFields.HiddenFieldSurvives` | resolvers/field_resolver_reflect.go:135-139 | a field two levels below a doubled struct survives though two paths lead to it |
| `Ordering.LexTotal` | resolvers/field_resolver_reflect.go:280-290 | the order of indices is total |
| `Ordering.Sort` | resolvers/field_resolver_reflect.go:144-159 | stands for the library's sort: a sorted permutation |
| `Utf8.FullRuneDecides` | internal/scanner/scanner.go:183-229 | once the buffer has a full character, or four bytes, what follows cannot change it |
| `Utf8.DecodeIff` | internal/scanner/scanner.go:223-229 | decoding gives a character exactly if its encoding comes first, and an error one byte wide exactly if no character's does |
| `Scanner.Reader.Read` | internal/scanner/scanner.go:197-202 | pieces of the source in order, of any size, the end reported with or after the last |
| `Scanner.Scanner.Fill` | internal/scanner/scanner.go:184-204 | refilling the buffer loses no byte of the source nor of the token's text |
| `Scanner.Scanner.ReadRune` | internal/scanner/scanner.go:178-256 | gives the character the whole source has next, and the counts that go with it, however the reader splits the source |
| `Scanner.Scanner.ScanIdentifier` | internal/scanner/scanner.go:313-320 | reads the longest run of identifier characters |
| `Scanner.Scanner.ScanDigits` | internal/scanner/scanner.go:332-357 | reads a run of digits and separators and notes which there were |
| `Scanner.Scanner.ScanNumber` | internal/scanner/scanner.go:359-443 | reads a number of any base with fraction and exponent, its kind and its errors being those its text shows |
| `Scanner.InvalidSep` | internal/scanner/scanner.go:459-496 | gives the first separator that is not between digits, or -1 if there is none |
| `Scanner.Scanner.ScanEscape` | internal/scanner/scanner.go:519-537 | reads one escape, counting an error if it is none |
| `Scanner.Scanner.ScanString` | internal/scanner/scanner.go:539-554 | reads to the closing quote, or counts an error at the end of the line or the source |
| `Scanner.Scanner.ScanBlockString` | internal/scanner/scanner.go:556-573 | reads to three quotes in a row |
| `Scanner.Scanner.Peek` | internal/scanner/scanner.go:277-286 | gives the first character, after a byte order mark, or the one looked at |
| `Scanner.Scanner.Next` | internal/scanner/scanner.go:264-275 | gives the character looked at and passes over it, outside any token |
| `Scanner.Scanner.Pos` | internal/scanner/scanner.go:677-695 | gives the offset of the character looked at, and the line and column counted anew in the source before it |
| `ScannerPositions.PosIsRight` | internal/scanner/scanner.go:677-695 | the counts kept give that line and column, from before the first character to behind the last |
| `ScannerPositions.EmptySourceHasNoPlace` | internal/scanner/scanner.go:606-619 | the end of an empty source is said to be at line 0, column 0 |
| `Scanner.Scanner.Scan` | internal/scanner/scanner.go:589-671 | the token, its kind, its place, its extent and what is looked at next are those of a scanner that has the whole source before it, for every source and every way to split it; it is what its characters say, in any case if it is a number |
| `TokenKinds.SourceIsRead` | internal/scanner/scanner.go:589-671 | for every source: the text of each number token is a float exactly if it has a point or the letter of an exponent; without empty string literals every token is what its characters say, after white space and comments only |
| `TokenKinds.ScanIs` | internal/scanner/scanner.go:589-671 | one scan: only white space and comments are passed over, the first characters decide the kind, and the token reaches as far as its characters go on |
| `NumberTokens.KindOfText` | internal/scanner/scanner.go:359-443 | a number's text says whether it is an integer: 'e' counts as an exponent except after a hexadecimal prefix, 'p' always |
| `TokenKinds.FaultsAreCounted` | internal/scanner/scanner.go:359-443 | a number's form, up to where it cannot go on, and the errors counted for it, from its text alone |
| `TokenKinds.BodyEnds` | internal/scanner/scanner.go:539-554 | a string goes on to the first quote not after a backslash, or to the end of its line |
| `TokenKinds.BlockEnds` | internal/scanner/scanner.go:556-573 | a block string ends with the first three quotes in a row, or with the source |
| `StringFaults.StringCounts` | internal/scanner/scanner.go:498-554 | the errors counted for a string are its backslashes that begin no escape, its bytes that are no characters, and one if no quote ends it |
| `Scanner.Scanner.TokenText` | internal/scanner/scanner.go:699-721 | the text is the source from the token's start to its end, saved or not, and asking again gives the same |
| `ScannerPositions.PlaceIsRight` | internal/scanner/scanner.go:606-619 | line and column reported are those counted anew in the source before the token |
| `ScannerPositions.StepIsGood` | internal/scanner/scanner.go:231-256 | each character read keeps the counts right |
| `ScannerRuns.ScanReached` | internal/scanner/scanner.go:589-671 | each scan moves on, and leaves the look-ahead in step with the source exactly if the token is no empty string literal |
| `ScannerRuns.AllTokens` | internal/scanner/scanner.go:589-671 | the tokens of a source and what lies between them make up the source, each in the right place |
| `ScannerRuns.PiecesAreTheSource` | internal/scanner/scanner.go:589-671 | the same from any point on |
| `ScannerRuns.FirstCharacterUnseen` | internal/scanner/scanner.go:634-650 | the first character of a literal is passed over unseen; the literal still ends where its body ends exactly if that character is no line feed and begins no run of backslashes that leads to a quote |
| `ScannerRuns.LineFeedStartsLiteral` | internal/scanner/scanner.go:539-554 | a line feed right after the opening quote does not end the literal |
| `ScannerRuns.EscapedQuoteEndsLiteral` | internal/scanner/scanner.go:634-650 | an escaped quote right after the opening quote ends the literal |
| `ScannerRuns.EmptyLiteralIsFollowedByAnother` | internal/scanner/scanner.go:634-647 | after an empty literal at the end comes a second string token without text |
| `TokenStream.Lexer.Consume` | internal/lexer/lexer.go:63-76 | the lexer stands at the next token that is no comma |
| `TokenStream.StreamIsWithoutCommas` | internal/lexer/lexer.go:63-76 | the parser sees all tokens but the commas |
| `Parser.Lexer.ConsumeToken` | internal/lexer/lexer.go:125-130 | the expected token is consumed, anything else is an error |
| `Parser.Lexer.ParseLit` | schema/literals.go:209-262 | reads a literal as the grammar says, sorting the fields of objects |
| `Parser.Lexer.ParseArgumentList` | schema/values.go:94-106 | reads arguments up to the closing parenthesis |
| `Parser.Lexer.ParseDirectiveList` | schema/directive.go:17-30 | reads directives as long as an at sign follows |
| `Parser.Lexer.ParseTypeRef` | schema/types.go:29-36 | reads a type with at most one non-null mark |
| `Parser.Lexer.ParseNullTypeRef` | schema/types.go:38-48 | reads a list type or a name |
| `Parser.Lexer.ParseInputVal` | schema/values.go:33-47 | reads a variable after its dollar sign, passing over a description |
| `Parser.Lexer.ParseSet` | schema/query.go:211-219 | reads a selection set |
| `Parser.Lexer.ParseFieldSelection` | schema/query.go:256-273 | reads a field, its alias, arguments, directives and selections |
| `Parser.Lexer.ParseDotted` | schema/query.go:275-298 | reads a spread, or an inline fragment with or without a type, with its directives |
| `Parser.Lexer.ParseOp` | schema/query.go:178-199 | reads an operation, its directives before its variables |
| `Parser.Lexer.ParseFrag` | schema/query.go:201-209 | reads a fragment |
| `Parser.Lexer.ParseDoc` | schema/query.go:144-176 | gives the document that the tokens spell, or an error exactly if they spell none |
| `Accepted.ParseIff` | schema/query.go:144-298 | for all tokens: they are parsed as a document exactly if they are one of the ways to write it, with or without empty parentheses and braces, colons, descriptions, names and types of fragments, fields of objects and definitions in any order |
| `Spelling.DefinitionsAreParsed` | schema/query.go:144-298 | whatever way a document is written, it is parsed as what is meant |
| `Accepted.DottedWasWritten` | schema/query.go:275-298 | what is read after three dots was written so: a name and directives, or directives and a selection set, with a type or without |
| `FullWriting.FullComesBack` | schema/query.go:144-298 | every document the parser can make comes back when it is written with nothing left out, untyped fragments, directives of variables and empty sets included |
| `FullWriting.MadeIff` | schema/query.go:144-298 | which documents the parser can make |
| `Formatter.Output.WriteLiteral` | schema/schema_format.go:277-308 | appends the text of a literal, with commas between the items of lists and objects |
| `Formatter.Output.WriteVariables` | schema/schema_format.go:221-275 | appends the text of variables without their directives, on one line, or one below the other and indented if one of them takes up more lines |
| `Formatter.Output.WriteSelections` | schema/query_format.go:45-55 | appends a selection set, its text indented line by line |
| `Formatter.Output.WriteSelection` | schema/query_format.go:57-82 | appends the text of a field, a spread or an inline fragment |
| `Formatter.Output.WriteDocument` | schema/query_format.go:11-20 | appends the text of operations, then fragments |
| `Indentation.Indent` | text/text.go:16-29 | every line between line feeds gets the indentation in front |
| `RoundTrip.LiteralBack` | schema/literals.go:209-262 | the tokens of a literal the parser can produce are parsed as that literal, whatever follows |
| `RoundTrip.TypeBack` | schema/types.go:29-48 | so are those of a type |
| `RoundTrip.SelectionBack` | schema/query.go:211-298 | so are those of a printable selection |
| `RoundTrip.OperationBack` | schema/query.go:178-199 | so are those of a printable operation |
| `RoundTrip.FragmentBack` | schema/query.go:201-209 | so are those of a printable fragment |
| `RoundTrip.PrintedComesBack` | schema/query.go:144-298 | parsing the tokens of a printable document gives the document |
| `RoundTrip.SortOfSorted` | schema/literals.go:252-254 | sorting fields that are sorted changes nothing |
| `RoundTrip.SortIsSorted` | schema/literals.go:252-254 | sorting puts all fields in order, and loses none |
| `RoundTrip.SortIsStable` | schema/literals.go:252-254 | fields of one name keep their order |
| `Unprintable.OpenDirectivesFail` | schema/query_format.go:40-41 | directives that end without arguments cannot be parsed before variables |
| `Unprintable.UntypedDiffers` | schema/query_format.go:76-82 | the tokens of an untyped inline fragment are never parsed as it |
| `Unprintable.OperationDiffers` | schema/query_format.go:34-43 | those of an operation that is not printable fail to be parsed, or give one that differs in more than literals |
| `Unprintable.UnprintableDiffers` | schema/query_format.go:11-82 | so do those of a document that is not printable |
| `Unprintable.ComesBackIffPrintable` | schema/query_format.go:11-82 | the tokens of a document the parser can produce are parsed as it exactly if it is printable |
| `Parsed.DocumentIsOk` | schema/query.go:144-298 | what the parser accepts has the form assumed by the round trip |
| `Parsed.ParsedComesBackIff` | schema/query.go:144-298 | for all tokens the parser accepts: those printed for the document are parsed as it exactly if its inline fragments have types, its operations, fragments and inline fragments have selections, its variables have no directives, and the last directive before variables has arguments |
| `Taken.PrintedWasRead` | schema/query.go:144-298 | every name and literal printed for a document is one of the tokens it was parsed from, or a word of the grammar |
| `ScannerLocality.SameToken` | internal/scanner/scanner.go:589-671 | a name, number or string is the same token wherever its characters stand, if a character follows that ends tokens and it is no empty string |
| `TextScan.TextRead` | internal/lexer/lexer.go:63-76 | a text put together from tokens that some source has, white space and commas, none running into the next, is read as just these tokens |
| `PrintedTokens.DocumentSpells` | schema/query_format.go:11-82 | in the text of a document no token runs into the next, and its tokens are those of the document with the indentation in its literals |
| `HungLexemes.HungIsLexical` | internal/scanner/scanner.go:539-573 | a literal with the indentation behind its line feeds is still one token |
| `IndentedDocument.LaidKeeps` | schema/query_format.go:45-55 | indentation changes nothing of a document but its literals |
| `FlatDocument.LaidIffFlat` | schema/query_format.go:45-55 | it changes none exactly if no literal of a variable or a selection has a line feed before its last character |
| `TextRoundTrip.LexedWellRead` | internal/lexer/lexer.go:63-123 | in a source without empty strings no token is empty or starts with a minus, and all names and literals but the last token can be found again elsewhere |
| `TextRoundTrip.WrittenIsRead` | schema/query_format.go:11-82 | the text written for a document is read as the tokens of the document with the indentation in its literals |
| `TextRoundTrip.TextComesBackIff` | schema/query.go:144-176 | from text to text: for every source without an empty string literal that the parser accepts, scanning and parsing what the formatter writes gives the same document exactly if it is printable and no literal of a variable or a selection has a line feed before its last character |
| `LostLiterals.EmptyStringLost` | internal/scanner/scanner.go:634-647 | a source with an empty string in a list is accepted, and what is written for its document has a syntax error |
| `LostLiterals.BlockStringGrows` | schema/schema_format.go:107-113 | a block string of two lines comes back with its second line indented |
| `ObjectLiterals.SortingKeepsValue` | schema/literals.go:252-254 | sorting the fields of an object keeps its value if no name is repeated |
| `ObjectLiterals.ParsedKeepsValue` | schema/literals.go:242-255 | the literal the parser makes evaluates like the fields as written |
| `ObjectLiterals.RepeatedNameDependsOnOrder` | schema/literals.go:156-162 | with a name repeated, two sorted orders evaluate differently |

## Left out

- Resolvers by reflection, the argument packer, JSON encoding and decoding: parameters of the model.
- LeafLists.WrittenAsMeantIff: `Meant` and `HasShape` take the code's test for a nil element as part of the type, so that elements it panics on although they are not nil count as values not of the type.
- RawMessage and ValueWithContext results, subscription events, tracing and logging of the executor.
- `append` on shared slices of selections: selections are values, as the code intends. A selection resolver is a value that is replaced in its map entry instead of a struct changed through a pointer.
- Evaluation of skip and include directives: an arbitrary predicate on directive lists. An unknown spread, which panics in the executor and is rejected by the validator, is excluded by the bound on documents.
- Null propagation to the parent of a failed non-null field (section 6.4.4 of the GraphQL specification): the code drops the field, and so does the model.
- Panics of asynchronous resolvers, contexts and cancellation.
- Shutdown of the WebSocket client, the idle timer, dialling and encoding; the wires are sequences.
- Overlap.OverlapValidator.Validate: on documents with named spreads only that it ends, because fields reached through a spread may be compared before their types are known.
- Overlap.OverlapValidator.ValidateSelection: what the validator finds out about a field is a table, filled in the order of the walk; its other rules for selections are not modelled.
- OverlapPlaces.FineIff: names and arguments are compared where two fields have the same parent type, as the code does. The GraphQL specification (section 5.3.2) also compares them where one parent is no object type, and does not below objects of different types.
- FragmentCycles.DetectCycles: for documents with unique fragment names, which another rule of the validator demands.
- MaxDepth.ExceedsMaxDepth: says nothing where the walk does not end; `DepthWalk.EndsIff` says exactly where that is.
- TypeUse.UsableIffValuesFit: for types without a non-null directly inside a non-null, the only ones the parser makes.
- EditDistance.LevenshteinDistance: for texts of one-byte characters, since the code indexes bytes.
- Marking used fragments, usage of variables, literals against types, and the other rules of the validator.
- Entry points copied by the schema's own AddIfMissing, and struct identity of types: types are told apart by name.
- The `quoted` option of tags, the types of fields, and the lookup of a field's value by index.
- Read errors other than the end of the source, error message texts, error callbacks, and TextAt, whose answer depends on the buffer.
- TextRoundTrip.TextComesBackIff: sources with an empty string literal are left out. Such a document can be lost (`LostLiterals.EmptyStringLost`); that none ever comes back is not shown.
- RoundTrip.PrintedComesBack: about tokens, as are the other lemmas of `RoundTrip`, `Unprintable` and `Parsed`; what text does to tokens is the matter of `TextRoundTrip`.
- Parser.Lexer.ConsumeToken: the parser's lexer moves over the sequence of tokens that `Reading.Lexed` gives for a source; that the code asks the scanner for them one at a time is modelled by `TokenStream.Lexer.Consume`.
- TokenKinds.SourceIsRead: after an empty string literal only number tokens are told from their text; what else follows one is the matter of `ScannerRuns`.
- StringFaults.StringCounts: the errors of names, block strings and white space, which come from bytes that are no characters, are counted by the scanner's definition only.
- Parser.Lexer.ParseInputVal: descriptions are passed over, as for query documents parsed without them.
- Ordering.Sort: the library's sort is not stable; the model's order among equal elements is one that it may give.
- Locations in documents, the pool of fields, schema definition language, schema printing and type resolution.
- HTTP handlers, the GraphiQL page, examples and the code generator.
