# Lighthouse core pieces in Dafny

A model of four self-contained pieces of the Lighthouse GraphQL server for Laravel, with proofs of their behaviour:

- **Streamed-error filtering** (`Stream::chunkError`). A chunk of an incremental response may carry an `errors` list. The errors kept for a chunk are those whose response path, joined with dots, starts as text with the chunk's path. They keep their order and are renumbered from 0. When the chunk has no list of errors, the result is null.
- **Model identity keys** (`ModelKey::build`). A model's class name, followed by its key or each part of a composite key, all joined with `:`.
- **The log broadcaster** (`LogBroadcaster`). It keeps the last payload sent on each subscription channel. Its three webhooks answer with fixed JSON responses. Its configuration is whatever it was created with.
- **Directive class generation** (`DirectiveCommand`, the `lighthouse:directive` command). The `--type`, `--field` and `--argument` flags and the answers at the prompts decide which interfaces the class implements and which schema locations it has. Implementing an interface adds its `use` import and the optional stub-file imports and method stubs. The collected parts then fill the five placeholders of the class stub.

Files:

- `wrappers.dfy`: `Option` and `Result`.
- `php_strings.dfy`: the PHP and `Str` string primitives the code uses (`implode`, `explode`, `str_replace`, `Str::startsWith`, `Str::afterLast`, `lcfirst`, integers as text).
- `php_arrays.dfy`: the array and `Collection` operations the code uses (`array_filter` with its kept keys, `array_values`, `filter()`, `unique()`).
- `stream.dfy`, `model_key.dfy`, `log_broadcaster.dfy`, `directive_command.dfy`: the four pieces.

The broadcaster is an immutable record, and `Broadcast` returns the next state. The directive command's interactive prompts, the class stub produced by the base generator, and the per-interface stub files are inputs:

- `Options` holds the flags.
- `Answers` holds what the user picked at the prompts.
- `StubFiles` maps an interface's short name to the contents of its imports and methods stub files. A missing key is a missing file.
- The stub text and the name the user typed are parameters of `BuildClass`.

`ModelKey` takes the model's class name and what `getKey()` returns: nothing, one integer or string, or the parts of a composite key. The `(array)` cast then turns this into a list. This is slightly wider than a plain list of key strings, and it follows the code.

## Model

| member | source | states |
|---|---|---|
| Stream.ChunkError | src/Support/Http/Responses/Stream.php:16-29 | The result is null exactly when the chunk has no `errors` entry holding a list. Otherwise it lists input errors at strictly increasing positions (order kept, renumbered from 0), so it is never longer than the input. For a non-empty `path` those positions are exactly the ones whose error has a dot-joined path starting with `path`: every returned error matches, and every matching error is returned as often as it occurs. |
| Stream.ChunkErrorIsDetermined | src/Support/Http/Responses/Stream.php:23-28 | Conversely, for a non-empty `path`, any list of the input errors taken in order at exactly the matching positions is what the chunk yields, so the contract above fixes the result. |
| Stream.ChunkErrorIdempotent | src/Support/Http/Responses/Stream.php:23-28 | Filtering the returned errors again with the same path returns them unchanged. |
| Stream.ChunkErrorMatchesJoinedText | src/Support/Http/Responses/Stream.php:25 | Matching is a prefix test on the joined text, not on segments. The path `a.b` selects an error at `a.bc`, but not one at `a` or one at `x.a.b`. |
| Stream.ChunkErrorMatchesListIndexes | src/Support/Http/Responses/Stream.php:25 | List indexes in a path take part through their decimal text. The path `a.1` selects an error at `a[1].b` and not one at `a`. |
| PhpArrays.FilterSpec | src/Support/Http/Responses/Stream.php:23-28 | `array_values(array_filter(...))` is the subsequence of the input taken at exactly the positions whose element the callback accepts, in input order. |
| PhpArrays.FilterIsDetermined | src/Support/Http/Responses/Stream.php:23-28 | Any subsequence taken at exactly the accepted positions equals the filter result, so that description determines it. |
| PhpArrays.FilterIdempotent | src/Support/Http/Responses/Stream.php:23-28 | Filtering a filtered list again with the same callback changes nothing. |
| PhpStrings.NatToStringRoundTrip | src/Support/Http/Responses/Stream.php:25 | The decimal text `implode` gives a list index reads back as that index. |
| ModelKey.Build | src/Execution/Utils/ModelKey.php:13-23 | The key starts with the class name. A null key gives the bare class name with no `:`. A single key gives exactly class name, `:`, key. A non-empty key has the class name followed by `:` as a prefix. |
| ModelKey.BuildSplits | src/Execution/Utils/ModelKey.php:15-21 | When no part contains `:`, splitting the key at `:` gives back the class name followed by the key parts in the order `getKey()` returns them. |
| ModelKey.BuildInjective | src/Execution/Utils/ModelKey.php:13-23 | Under the same condition, two models with equal keys have the same class name and the same key texts. |
| ModelKey.IntegerKeysAreColonFree | src/Execution/Utils/ModelKey.php:18-20 | A class name without `:` and integer key parts always meet that condition. |
| LogBroadcaster.Create | src/Subscriptions/Broadcasters/LogBroadcaster.php:18-27 | A new broadcaster holds no broadcasts and holds exactly the given configuration. |
| LogBroadcaster.CreateDefault | src/Subscriptions/Broadcasters/LogBroadcaster.php:18-27 | Without an argument, both the broadcasts and the configuration are empty. |
| LogBroadcaster.Authorized | src/Subscriptions/Broadcasters/LogBroadcaster.php:29-34 | Status 200 with a body whose only key is `message`, set to `ok`, whatever the request. |
| LogBroadcaster.Unauthorized | src/Subscriptions/Broadcasters/LogBroadcaster.php:36-41 | Status 403 with a body whose only key is `error`, set to `unauthorized`, whatever the request. |
| LogBroadcaster.Hook | src/Subscriptions/Broadcasters/LogBroadcaster.php:43-48 | Status 200 with a body whose only key is `message`, set to `okay`, whatever the request. |
| LogBroadcaster.Broadcast | src/Subscriptions/Broadcasters/LogBroadcaster.php:50-53 | The subscriber's channel now holds the payload. The set of channels grows by exactly that channel. Every other channel keeps its payload, and the configuration is unchanged. |
| LogBroadcaster.Broadcasts | src/Subscriptions/Broadcasters/LogBroadcaster.php:58-61 | Without a key, all stored broadcasts. With a key, a payload that is present exactly when the channel has a broadcast, and is then that broadcast. |
| LogBroadcaster.Config | src/Subscriptions/Broadcasters/LogBroadcaster.php:68-71 | The stored configuration; `ConfigSurvivesReplay` states that it is the constructor argument after any broadcasts. |
| LogBroadcaster.CreateHoldsNothing | src/Subscriptions/Broadcasters/LogBroadcaster.php:58-61 | On a new broadcaster, `broadcasts()` without a key is the empty map and `broadcasts(channel)` is null for every channel. |
| LogBroadcaster.BroadcastThenRead | src/Subscriptions/Broadcasters/LogBroadcaster.php:50-61 | After `broadcast(s, d)`, `broadcasts(s.channel)` returns `d`. |
| LogBroadcaster.BroadcastLeavesOtherChannels | src/Subscriptions/Broadcasters/LogBroadcaster.php:50-61 | Broadcasting on one channel leaves what `broadcasts` returns for every other channel unchanged. |
| LogBroadcaster.BroadcastOverwrites | src/Subscriptions/Broadcasters/LogBroadcaster.php:52 | Two broadcasts on the same channel leave the same state as the later one alone. |
| LogBroadcaster.BroadcastsCommute | src/Subscriptions/Broadcasters/LogBroadcaster.php:52 | Broadcasts on different channels give the same state in either order. |
| LogBroadcaster.LastSentIsLatest | src/Subscriptions/Broadcasters/LogBroadcaster.php:50-53 | The reference reading of a history of broadcasts finds nothing on a channel exactly when no broadcast went to it. Otherwise it finds the payload of the latest broadcast to it. |
| LogBroadcaster.ReplayReadsLastPayload | src/Subscriptions/Broadcasters/LogBroadcaster.php:50-61 | After any sequence of broadcasts from a new broadcaster, `broadcasts(channel)` is the payload of the latest broadcast on that channel, or null when there was none. |
| LogBroadcaster.ConfigSurvivesReplay | src/Subscriptions/Broadcasters/LogBroadcaster.php:68-71 | `config()` returns the constructor argument after any sequence of broadcasts. |
| DirectiveCommand.GetNameInput | src/Console/DirectiveCommand.php:74-77 | The class name is the typed name followed by `Directive`. |
| PhpStrings.AfterLast | src/Console/DirectiveCommand.php:211-214 | The result is a suffix of the input with no backslash in it. When the input has a backslash, the result is exactly what follows the last one. Otherwise it is the whole input. |
| PhpStrings.AfterLastCharacterization | src/Console/DirectiveCommand.php:211-214 | That description is met by exactly one text, the result of `AfterLast`. |
| DirectiveCommand.ShortName | src/Console/DirectiveCommand.php:211-214 | The short name is a suffix of the fully-qualified name with no backslash in it. It is exactly what follows the last backslash when there is one, and the whole name otherwise. |
| DirectiveCommand.ShortNameOfContract | src/Console/DirectiveCommand.php:211-214 | The short name of each directive interface's fully-qualified name is its bare class name. |
| DirectiveCommand.StubImports | src/Console/DirectiveCommand.php:225-228 | When the imports stub file exists and is truthy, the extra imports are its lines: none spans a line break, and joined with line breaks they give back the file's text. Otherwise there are none. |
| DirectiveCommand.StubMethods | src/Console/DirectiveCommand.php:230-232 | An interface contributes at most one method stub: the contents of its methods stub file, and only when that file exists and is truthy. |
| DirectiveCommand.ImplementInterface | src/Console/DirectiveCommand.php:219-233 | Appends the short name to the implemented interfaces. Appends `use <fqn>;` and then the stub-file import lines to the imports. Appends the stub-file method stub, if any, to the methods. Locations are unchanged. |
| DirectiveCommand.AddLocation | src/Console/DirectiveCommand.php:235-238 | Appends the location and changes nothing else. |
| DirectiveCommand.AskForInterfaces | src/Console/DirectiveCommand.php:173-187 | Adds the short names of the chosen interfaces in the order chosen. For each chosen interface in turn, appends its `use` line and then its stub-file import lines to the imports (`ImportsFor`). Appends the truthy methods stub files of the chosen interfaces, in order, to the method stubs (`MethodsFor`). Leaves locations alone. |
| DirectiveCommand.MethodFiles | src/Console/DirectiveCommand.php:230-232 | One entry per interface, in order: the contents of its methods stub file, or `""` when there is none. `MethodsFor` keeps the truthy ones. |
| DirectiveCommand.AddedForOne | src/Console/DirectiveCommand.php:219-233 | For one interface, `ImportsFor` is its `use` line followed by its stub-file import lines, and `MethodsFor` is its method stub, if any. These are exactly what `implementInterface` pushes. |
| DirectiveCommand.ImportsForAppend | src/Console/DirectiveCommand.php:173-187 | The imports added for two lists of interfaces in a row are those of the first list followed by those of the second. |
| DirectiveCommand.MethodsForAppend | src/Console/DirectiveCommand.php:173-187 | The method stubs added for two lists of interfaces in a row are those of the first list followed by those of the second. |
| DirectiveCommand.AddedForFirst | src/Console/DirectiveCommand.php:173-187 | A list of interfaces adds what its first interface adds, followed by what the rest add. |
| DirectiveCommand.ImportsForHasUses | src/Console/DirectiveCommand.php:225 | The imports added for a list of interfaces hold the `use` line of each of them. |
| DirectiveCommand.ImportsForSingleLines | src/Console/DirectiveCommand.php:225-228 | When no interface name spans a line break, no added import line does either. The stub-file lines come from `explode` at line breaks. |
| DirectiveCommand.AskForLocations | src/Console/DirectiveCommand.php:192-206 | Adds the chosen locations in the order chosen and changes nothing else. |
| DirectiveCommand.CollectForType | src/Console/DirectiveCommand.php:101-111 | The `--type` part adds the names of the chosen type interfaces and the chosen type locations. It adds the imports and method stubs of exactly those interfaces, in order. |
| DirectiveCommand.CollectForField | src/Console/DirectiveCommand.php:113-116 | The `--field` part adds the names of the chosen field interfaces and then `FIELD_DEFINITION`. It adds the imports and method stubs of exactly those interfaces, in order. |
| DirectiveCommand.CollectForArgument | src/Console/DirectiveCommand.php:118-131 | The `--argument` part adds the base interface the confirm answer picks, then the chosen argument interfaces, and then the chosen argument locations. It adds the imports and method stubs of the base interface and then of the chosen ones, in order. |
| DirectiveCommand.Collect | src/Console/DirectiveCommand.php:84-131 | Fails with the missing-flag message exactly when no flag is given. Otherwise the implemented interfaces are the names of the chosen interfaces, and the locations are the chosen locations, each in the order type, field, argument. The imports are the `use` line and stub-file import lines of each chosen interface in that order, and none spans a line break. The method stubs are the truthy methods stub files of the chosen interfaces in that order. |
| DirectiveCommand.ImportsOfSteps | src/Console/DirectiveCommand.php:101-131 | Three steps that each append the import lines of their interfaces, starting from none, end with those of all the interfaces in order. |
| DirectiveCommand.MethodsOfSteps | src/Console/DirectiveCommand.php:101-131 | Three steps that each append the method stubs of their interfaces, starting from none, end with those of all the interfaces in order. |
| DirectiveCommand.CollectedImports | src/Console/DirectiveCommand.php:101-131 | The import lines collected by the three flags are those of the chosen interfaces, in the order type, field, argument. |
| DirectiveCommand.CollectedMethods | src/Console/DirectiveCommand.php:101-131 | The method stubs collected by the three flags are those of the chosen interfaces, in the order type, field, argument. |
| DirectiveCommand.FieldDirectiveOnFieldDefinition | src/Console/DirectiveCommand.php:113-116 | A field directive always has `FIELD_DEFINITION` among its locations. |
| DirectiveCommand.ArgumentDirectiveImplementsOneBase | src/Console/DirectiveCommand.php:118-126 | An argument directive implements exactly one of `ArgDirective` and `ArgDirectiveForArray`, the one the confirm answer picks. It comes right before the argument interfaces the user chose. |
| DirectiveCommand.EveryImplementedInterfaceImported | src/Console/DirectiveCommand.php:133-139 | Every implemented interface's `use` line is among the lines that make up the imports text. |
| DirectiveCommand.ImportsText | src/Console/DirectiveCommand.php:133-140 | The text put in for `{{ imports }}`; `ImportsTextLines` states what its lines are. |
| DirectiveCommand.ImportsTextLines | src/Console/DirectiveCommand.php:133-139 | The imports text has one line per truthy import, each once, in order of first occurrence, and nothing else. |
| DirectiveCommand.CollectedImportsTextLines | src/Console/DirectiveCommand.php:133-139 | For a collected class with some truthy import, the lines of the imports text are its truthy imports, each once in order of first occurrence, and they include the `use` line of every chosen interface. |
| PhpArrays.FilterTruthy | src/Console/DirectiveCommand.php:136 | `filter()` is the subsequence of the input taken at exactly the positions whose string is neither `""` nor `"0"`, in input order. |
| PhpArrays.FilterAppend | src/Console/DirectiveCommand.php:136 | Filtering two lists in a row gives the kept elements of the first followed by those of the second. |
| PhpArrays.FilterTruthyAppend | src/Console/DirectiveCommand.php:136 | `filter()` of two lists in a row is the filtered first list followed by the filtered second. |
| PhpArrays.Unique | src/Console/DirectiveCommand.php:137 | `unique()` keeps each distinct element once, ordered by first occurrence, and every element of the input is kept. |
| DirectiveCommand.BuildClass | src/Console/DirectiveCommand.php:84-166 | Fails with the missing-flag message exactly when no flag is given. `BuildClassFillsStub` states the class it yields otherwise. |
| DirectiveCommand.Render | src/Console/DirectiveCommand.php:133-165 | The five `str_replace` calls in the order of the code; `RenderFillsLayout` states what they yield. |
| DirectiveCommand.ReplaceInLayout | src/Console/DirectiveCommand.php:133-165 | One `str_replace` of a placeholder, on a stub made of plain texts and placeholders, replaces exactly the occurrences of that placeholder and leaves the texts and the other placeholders as they are. |
| DirectiveCommand.ApplyAllFillsLayout | src/Console/DirectiveCommand.php:133-165 | Chaining the replacements on such a stub gives the literal texts interleaved with the values, each placeholder filled by the first substitution naming it and unnamed placeholders left as they are. Every value but the last must be plain, so that no value supplies a placeholder for a later step. |
| DirectiveCommand.SubstitutionValues | src/Console/DirectiveCommand.php:133-165 | `{{ imports }}` gets the imports text, `{{ name }}` the typed name with its first character lower-cased, `{{ locations }}` the locations joined by ` \| `, `{{ methods }}` the method stubs joined by line breaks, and `{{ implements }}` the implemented short names joined by `, `. |
| DirectiveCommand.RenderFillsLayout | src/Console/DirectiveCommand.php:133-165 | The substituting part of `buildClass` turns a stub of plain texts and placeholders into those texts interleaved with the values above. |
| DirectiveCommand.BuildClassFillsStub | src/Console/DirectiveCommand.php:84-166 | When a flag was given, `buildClass` yields the stub with its placeholders filled from the collected parts. |
| PhpStrings.ReplaceSkipsPrefix | src/Console/DirectiveCommand.php:133-165 | `str_replace` leaves a leading text in which no occurrence starts as it is, and replaces in the rest. |
| PhpStrings.ReplaceFirstOccurrence | src/Console/DirectiveCommand.php:133-165 | `str_replace` replaces the first occurrence and then continues after it. |
| PhpStrings.ReplaceAbsent | src/Console/DirectiveCommand.php:133-165 | `str_replace` leaves a text without the search string unchanged. |
| PhpStrings.LcFirst | src/Console/DirectiveCommand.php:145 | `lcfirst` keeps the length and everything after the first character. An upper-case ASCII first letter becomes its lower-case letter (code point plus 32); any other first character stays. |
| PhpStrings.Join | src/Execution/Utils/ModelKey.php:15-22 | `implode` starts with the first part; `SplitJoin` states that exploding it at a delimiter no part contains gives the parts back. |
| PhpStrings.Split | src/Console/DirectiveCommand.php:226 | `explode` gives at least one piece and no piece contains the delimiter; `JoinSplit` states that imploding the pieces gives the text back. |
| PhpStrings.JoinSplit | src/Console/DirectiveCommand.php:226 | Imploding the pieces of `explode` with the same delimiter gives back the original text. |
| PhpStrings.SplitJoin | src/Console/DirectiveCommand.php:133-139 | Exploding an `implode` at a delimiter no part contains gives back the parts. |
| PhpStrings.ReplaceAll | src/Console/DirectiveCommand.php:133-165 | `str_replace` scans left to right and replaces non-overlapping occurrences; `ReplaceAbsent`, `ReplaceFirstOccurrence` and `ReplaceSkipsPrefix` state what it does. |

## Left out

- Stream.ChunkError: `Str::startsWith` is modelled as a plain textual prefix, and the contract leaves the empty `path` open. The framework helper answers false for an empty needle, which would keep no error, while a plain prefix test keeps every error. Neither is promised.
- An error without a `path` entry, or with a `path` that is not a list, is left out; PHP raises a type error there.
- An `errors` entry that is an array with non-integer or non-consecutive keys is modelled as a list. Only `path` and `message` of an error are kept; its other keys are not distinguished.
- ModelKey.BuildInjective: stated only for class names and key parts free of `:`. A string key containing `:` can make two models share a key; the code makes no promise there.
- Integers are rendered at any size; PHP's 64-bit integer width and key types other than integers and strings (floats, objects) are left out.
- LogBroadcaster.Broadcasts: `Arr::get` is modelled as an exact-key lookup; its dot-notation fallback for nested arrays is left out. The `Request` arguments of the webhooks are ignored, as in the code. Response headers and the rest of `JsonResponse` are not modelled.
- The `DirectiveCommand` prompts (`choice`, `confirm`), the base generator's `buildClass` and `getNameInput`, and file reads (`getFileIfExists`) are inputs rather than operations. `getStub`, `namespaceConfigKey` and `getOptions` only name files, config keys and flags, and are not modelled.
- The mapping from an interface's short name to its stub file path (`Str::snake`) is left out. Stub files are keyed by short name directly.
- The interfaces the user can pick are the thirteen directive interfaces of the `Nuwave\Lighthouse\Support\Contracts` namespace.
- DirectiveCommand.ArgumentDirectiveImplementsOneBase: assumes the answers come from the offered choices (`ValidAnswers`), as the prompts enforce.
- `Collection::unique()` compares loosely in PHP. Strings are compared exactly here, which agrees for the import lines, since none of them is numeric.
- DirectiveCommand.ApplyAllFillsLayout, DirectiveCommand.RenderFillsLayout, DirectiveCommand.BuildClassFillsStub: stated for stubs whose literal text has each opening brace followed by some other character, and for values, other than the last one, of which the same holds. The class stub file is not part of this model. A method stub meets the condition as long as it contains no `{{` and does not end with `{`. A value that held a later placeholder, such as a method stub containing `{{ implements }}`, would be substituted again; that case is not stated.
- LogBroadcaster.BroadcastsCommute: the stored broadcasts are a map. PHP arrays also remember insertion order, so after broadcasts on two channels in either order `broadcasts()` holds the same entries but lists them in a different order. The equality holds up to that order; ordering is not modelled.
