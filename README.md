# gimo core, modelled in Dafny

gimo is a GObject plugin framework. This project models the core of gimo:

- **The context.** A context is a registry of installed plugins keyed by plugin id. It also holds the plugin search paths and the notifications of the state-changed signal. A new context installs and starts two core plugins: the file loader plugin and the XML archive plugin.
- **Plugins.** A plugin is an immutable descriptor plus lifecycle fields: the owning context, its directory, the loaded module ("runtime") and the state. The model covers:
  - install and uninstall;
  - module loading, with requirement resolution, rollback and notification;
  - start and stop;
  - define and resolve.
- **Extension points, extensions and configuration trees.** Extension points and extensions are adopted by their plugin and sorted by local id. Configurations are looked up by dotted path.
- **The loader.** The loader keeps a table of factories keyed by file suffix, a queue of search paths, and an optional cache.
- **Stores and tables.** The model covers:
  - the object archive;
  - the data store;
  - the per-object binding tables;
  - the runtime symbol table;
  - the last-error slot.
- **The XML archive readers.** The newer reader builds objects from a frame stack. The earlier reader, kept among the plugins, only checks the document. The string conversions the reader registers are modelled as well.
- **The earlier plugin descriptor, GimoPluginfo**, together with the dependency records GimoRequire and GimoImport.
- **Helpers.** The extension-id parser, the NULL-aware string comparator, array cloning and the type-name-to-symbol rule.

## How the model is built

Most C files of the core are a Dafny module named after the file: `Archive`, `Binding`, `Context`, `DataStore`, `ExtConfig`, `Extension`, `ExtPoint`, `Import`, `Loader` (which also holds the loadable object of `gimo-loadable.c`), `Plugin`, `Pluginfo`, `Require`, `Runtime` and `Utils`. The exceptions are these:

- `ErrorSlot` models `src/gimo-error.c`.
- `src/gimo-xmlarchive.c` is split in three. `XmlEvents` holds the tokenizer's events, `XmlTransform` the string conversions the reader registers, and `XmlArchive` the reader itself.
- `XmlArchiveLegacy` models `src/plugins/gimo-xmlarchive.c`.
- `Str` (the C string functions and GLib's split and path building), `Sorting` (GLib's pointer-array sort, `bsearch` and the tree's key order) and `Wrappers` (`Option`) have no C file of their own.

The model is built as follows:

- **Plain values.** A C object that is never changed after construction is a `datatype` or a class with `const` fields. Examples are Require, Import and ExtConfig.
- **State changed in place.** A C object whose fields change in place is a `class`. Its `var` fields are updated by methods with `modifies` clauses. Examples are Plugin, Context, Loader, DataStore and ParseContext.
- **Collections.** GPtrArray and GQueue become `seq`. GTree and GHashTable become `map`.
- **Traversal order.** The order of a string-keyed tree's traversal is a separate ghost listing of the keys in ascending `strcmp` order (`Sorting.InOrder`).
- **Methods and specification functions.** Each method is proved against a specification function, for example `Archive.Add` or `XmlArchive.Run`. The properties the source promises are proved as lemmas about those functions.

### Parameters instead of external code

Code that calls outside the core is a parameter of the model:

- **Module loading.** The module loader in effect is `loader`. Symbol lookup in a loaded module is `symbols`.
- **Type system and tokenizer.** The GType system and expat's tokenizer appear as the `Types` and `Registry` datatypes and a chunked event sequence.
- **File system.** File existence is `exists_`.
- **Factories.** Whether a factory makes a loadable object, and whether that object loads a file, are `makes` and `loads`.
- **Start handlers.** The results of the start signal's handlers are a parameter.
- **Process-wide state.** The process-wide binding tables and the last-error slot are objects passed explicitly (`Binding.Bindings`, `ErrorSlot.LastError`).

NULL pointers are `Option` where the source handles NULL. Back-pointers that would make a module cycle are typed `object?`.

### Where the code and the documentation differ

Where the code and the documentation differ, the model follows the code:

- **Extension lookup.** `gimo_context_query_extensions` lists the extensions of every plugin in ascending plugin-id order. It does not sort the extensions themselves.
- **Uninstall order.** `gimo_context_uninstall_plugin` uninstalls the plugin through the tree's destroy function before it emits (INSTALLED, UNINSTALLED). Observers therefore see the plugin already UNINSTALLED.
- **Optional requirements.** An optional requirement is resolved like any other. Its flag is never consulted.

## Model

| member | source | states |
|---|---|---|
| Str.StrcmpIsTotalOrder | src/gimo-utils.c:42-56 | the strcmp sign is zero exactly on equal strings and flips with its arguments, so the trees and bsearch comparators are total orders |
| Str.LessTransitive | src/gimo-utils.c:42-56 | strcmp's order is transitive |
| Str.LessTotal | src/gimo-utils.c:42-56 | any two distinct strings are ordered one way or the other |
| Str.IndexOf | src/gimo-extconfig.c:257 | strchr: the first occurrence of the character and none before it, or none at all |
| Str.LastIndexOf | src/gimo-utils.c:28 | strrchr: the last occurrence and none after it, or none at all |
| Str.JoinPieces | src/gimo-loader.c:291 | g_strsplit on one separator loses nothing: joining the pieces with the separator gives the string back |
| Str.BuildPathPlain | src/gimo-plugin.c:1024-1027 | g_build_path joins two elements that neither start nor end with '/' with exactly one '/' |
| Sorting.Sort | src/gimo-extconfig.c:114-117 | g_ptr_array_sort: the result is ordered by the key under strcmp and is a permutation of the input |
| Sorting.Find | src/gimo-extconfig.c:271-273 | bsearch over a sorted array: a returned element has the key, and no element has it when none is returned |
| Sorting.SortKeepsKeys | src/gimo-plugin.c:407-408 | sorting keeps exactly the elements that carry a given key |
| Sorting.InOrderMembers | src/gimo-context.c:230-239 | the ascending listing of a tree's keys holds exactly its keys |
| Sorting.InOrderIncreasing | src/gimo-context.c:230-239 | the listing is strictly ascending under strcmp, so each key is visited once |
| Sorting.SortedKeys | src/gimo-context.c:230-239 | the loop that takes minima one by one produces exactly the ascending listing |
| Sorting.PermutationKeepsDistinct | src/gimo-plugin.c:404-421 | a sorted copy of an array without repeats has no repeats |
| Sorting.DistinctMultiplicity | src/gimo-plugin.c:404-421 | a sequence has no repeats exactly when no element's multiset count exceeds one |
| Utils.ParseExtensionId | src/gimo-utils.c:25-40 | the id splits at its last '.': the prefix is the plugin id, the suffix has no dot; without a dot there is no prefix and the local id is the whole string |
| Utils.ParseGlobalId | src/gimo-utils.c:25-40 | "<plugin id>.<local id>" with a dot-free local id parses back into its parts |
| Utils.CompareNullable | src/gimo-utils.c:42-56 | NULL precedes every string, two NULLs are equal, and two strings compare by strcmp |
| Utils.CompareNullableOrder | src/gimo-utils.c:42-56 | the comparator is antisymmetric and transitive |
| Utils.CloneObjectArray | src/gimo-utils.c:58-82 | NULL stays NULL; otherwise the same elements in the same order, each visited once, in order, by the callback when one is given, and none visited without one |
| Utils.SymbolFromTypeName | src/gimo-utils.c:112-133 | the loop produces the specified symbol: the lower-cased name with underscores inserted by the case rule, then "_get_type" |
| Utils.SymbolLength | src/gimo-utils.c:112-133 | the symbol's length is the name's plus the inserted underscores plus nine |
| Utils.SymbolStartsWithName | src/gimo-utils.c:112-133 | no underscore goes before the first character |
| Utils.SymbolPrefixIsLoweredName | src/gimo-utils.c:112-133 | removing the inserted underscores gives back the lower-cased name |
| Utils.SymbolExample | src/gimo-utils.c:112-133 | "GimoPlugin" maps to "gimo_plugin_get_type" |
| ErrorSlot.LastError.constructor | src/gimo-error.c:24-26 | the slot starts with code 0 and no message |
| ErrorSlot.LastError.SetErrorFull | src/gimo-error.c:45-67 | the code is always set; the message only when one is given |
| ErrorSlot.LastError.SetError | src/gimo-error.c:35-38 | sets the code and keeps the earlier message |
| ErrorSlot.LastError.SetErrorString | src/gimo-error.c:40-43 | sets the code and the message, the string taken as already formatted |
| ErrorSlot.LastError.SetErrorReturnVal | src/gimo-error.h:74-78 | reports the code and hands back the value unchanged |
| ErrorSlot.LastError.DupErrorString | src/gimo-error.c:74-88 | the stored message if any, otherwise the code's name from the table |
| ErrorSlot.LastError.ClearError | src/gimo-error.c:90-100 | code 0 and no message |
| ErrorSlot.SetThenGet | src/gimo-error.c:35-72 | a code set is read back; a later plain code replaces the code and keeps the message |
| Require.NewRequire | src/gimo-require.c:165-195 | every getter returns the argument given to the constructor |
| Import.NewImport | src/gimo-import.c:64-97 | every getter returns the argument given to the constructor |
| Archive.Add | src/gimo-archive.c:94-118 | stored exactly when the id is free; a stored object is under its id, other entries are unchanged, and a taken id leaves the table unchanged |
| Archive.Query | src/gimo-archive.c:129-149 | the object under the id, or NULL exactly when the id is unknown |
| Archive.Remove | src/gimo-archive.c:151-165 | only that id goes; an unknown id changes nothing |
| Archive.AddThenQuery | src/gimo-archive.c:94-149 | query after add returns the added object, or the first object when the id was taken |
| Archive.RemoveThenQuery | src/gimo-archive.c:129-165 | after removal the id is unknown and every other id keeps its object |
| Archive.SameObjectTwice | src/gimo-archive.c:94-118 | one object may be stored under two ids |
| Archive.Archive.constructor | src/gimo-archive.c:35-47 | a new archive is empty |
| Archive.Archive.AddObject | src/gimo-archive.c:94-118 | the table and the result are those of Add |
| Archive.Archive.QueryObject | src/gimo-archive.c:129-149 | the result is Query on the table |
| Archive.Archive.RemoveObject | src/gimo-archive.c:151-165 | the table is Remove of the old one |
| Archive.ArchiveScenario | tests/test-archive.c:449-472 | the archive test: "1" cannot be added twice, "2" takes the same object, then removing "1" leaves only "2" |
| Binding.Entry | src/gimo-binding.c:158-194 | the entry under target and key, present exactly when both are bound |
| Binding.Bind | src/gimo-binding.c:47-137 | the target's location exists afterwards; the key holds the data, or nothing for NULL; every other key and object is unchanged |
| Binding.LookupObjectIn | src/gimo-binding.c:158-175 | an object exactly when the entry holds an object; a string entry is invisible |
| Binding.LookupStringIn | src/gimo-binding.c:177-194 | a string exactly when the entry holds a string; an object entry is invisible |
| Binding.ObjectArg | src/gimo-binding.c:87-107 | a NULL object means removal; otherwise an object entry |
| Binding.StringArg | src/gimo-binding.c:117-137 | a NULL string means removal; otherwise a string entry |
| Binding.StringRoundTrip | src/gimo-binding.c:117-194 | a bound string is looked up unchanged and is not an object |
| Binding.ObjectRoundTrip | src/gimo-binding.c:87-194 | a bound object is looked up as the same reference and is not a string |
| Binding.BindNullRemoves | src/gimo-binding.c:87-137 | binding NULL removes the key, whatever it held |
| Binding.BindIsolated | src/gimo-binding.c:47-137 | a bind changes no other object and no other key |
| Binding.RebindReplaces | src/gimo-binding.c:87-137 | only the last bind of a key is seen |
| Binding.Bindings.constructor | src/gimo-binding.c:47-77 | no locations at first |
| Binding.Bindings.BindObject | src/gimo-binding.c:87-107 | the tables become Bind with the object argument |
| Binding.Bindings.BindString | src/gimo-binding.c:117-137 | the tables become Bind with the string argument |
| Binding.Bindings.LookupObject | src/gimo-binding.c:158-175 | the result is LookupObjectIn, and no location is created |
| Binding.Bindings.LookupString | src/gimo-binding.c:177-194 | the result is LookupStringIn, and no location is created |
| Binding.Bindings.QueryObject | src/gimo-binding.c:205-219 | the same answer as lookup_object |
| Binding.Bindings.QueryString | src/gimo-binding.c:221-235 | the same answer as lookup_string |
| Binding.BindScenario | tests/test-datastore.c:46-52 | a string bound on one object is found; an object bound on a second object is found there |
| DataStore.Store | src/gimo-datastore.c:130-159 | a value replaces whatever the key held; NULL removes the key; other keys are unchanged |
| DataStore.Fetch | src/gimo-datastore.c:171-181 | the key's value, present exactly when the key is stored |
| DataStore.StringAt | src/gimo-datastore.c:240-249 | a string exactly when the stored value is string-typed |
| DataStore.ObjectAt | src/gimo-datastore.c:286-295 | an object exactly when the stored value is object-typed |
| DataStore.StringArg | src/gimo-datastore.c:213-228 | NULL removes the key; otherwise a string-typed value |
| DataStore.ObjectArg | src/gimo-datastore.c:259-274 | NULL removes the key; otherwise an object-typed value |
| DataStore.SetThenGet | src/gimo-datastore.c:130-181 | get returns what set stored, and other keys keep theirs |
| DataStore.SetNullRemoves | src/gimo-datastore.c:130-274 | NULL removes the key, through set, set_string or set_object |
| DataStore.SetReplacesAcrossTypes | src/gimo-datastore.c:130-159 | the last set decides what the key holds, whatever the earlier value's type |
| DataStore.TypedGetters | src/gimo-datastore.c:240-295 | get_string sees only strings and get_object only objects |
| DataStore.Visit | src/gimo-datastore.c:192-203 | the keys the foreach visits are a prefix of the listing |
| DataStore.VisitStopsAtFirst | src/gimo-datastore.c:192-203 | foreach stops exactly at the first key whose callback returns TRUE; a callback that never stops sees all keys |
| DataStore.VisitAscending | src/gimo-datastore.c:192-203 | the visited keys are strictly ascending |
| DataStore.VisitAll | src/gimo-datastore.c:192-203 | a callback that never stops sees every stored key exactly once, in order |
| DataStore.DataStore.constructor | src/gimo-datastore.c:117-120 | a new store is empty |
| DataStore.DataStore.Set | src/gimo-datastore.c:130-159 | the table becomes Store of the old one |
| DataStore.DataStore.Get | src/gimo-datastore.c:171-181 | the result is Fetch |
| DataStore.DataStore.SetString | src/gimo-datastore.c:213-228 | the table becomes Store with the string argument |
| DataStore.DataStore.GetString | src/gimo-datastore.c:240-249 | the result is StringAt |
| DataStore.DataStore.SetObject | src/gimo-datastore.c:259-274 | the table becomes Store with the object argument |
| DataStore.DataStore.GetObject | src/gimo-datastore.c:286-295 | the result is ObjectAt |
| DataStore.DataStore.Foreach | src/gimo-datastore.c:192-203 | the loop visits exactly the keys Visit lists over the ascending key listing |
| DataStore.StoreScenario | tests/test-datastore.c:31-44 | the data-store test: no value at first, then the string, then the object replaces it |
| DataStore.NestedScenario | tests/test-datastore.c:40-42 | a store kept in another store is retrieved as the same object with its own data |
| DataStore.ValueBindings.constructor | src/gimo-datastore.c:44-74 | no locations at first |
| DataStore.ValueBindings.Slot | src/gimo-datastore.c:44-74 | the target's table, or an empty one when it has none |
| DataStore.ValueBindings.Bind | src/gimo-datastore.c:305-327 | only the target's table changes, to Store of it |
| DataStore.ValueBindings.Lookup | src/gimo-datastore.c:339-348 | the result is Fetch on the target's table |
| DataStore.ValueBindings.BindString | src/gimo-datastore.c:358-373 | the target's table becomes Store with the string argument |
| DataStore.ValueBindings.LookupString | src/gimo-datastore.c:385-394 | the result is StringAt on the target's table |
| DataStore.ValueBindings.BindObject | src/gimo-datastore.c:404-419 | the target's table becomes Store with the object argument |
| DataStore.ValueBindings.LookupObject | src/gimo-datastore.c:431-440 | the result is ObjectAt on the target's table |
| DataStore.BindPerObject | src/gimo-datastore.c:305-394 | a value bound on one object is found there and leaves another object's table unchanged |
| Runtime.Define | src/gimo-runtime.c:104-125 | accepted exactly when there is no table or the symbol is free; then the symbol maps to the object; otherwise the table is unchanged |
| Runtime.Lookup | src/gimo-runtime.c:164-181 | the defined object, present exactly when the table holds the symbol |
| Runtime.DefineThenLookup | src/gimo-runtime.c:104-181 | an accepted definition is what resolve returns; other symbols keep theirs |
| Runtime.RedefineKeepsFirst | src/gimo-runtime.c:104-125 | defining a taken symbol is refused and the first object stays |
| Runtime.Runtime.constructor | src/gimo-runtime.c:99-102 | no owner and no table |
| Runtime.Runtime.DefineObject | src/gimo-runtime.c:104-125 | table and result are those of Define; a refused definition reports CONFLICT |
| Runtime.Runtime.Resolve | src/gimo-runtime.c:164-181 | the result is Lookup on the table |
| Runtime.Runtime.EmitResult | src/gimo-runtime.c:127-162 | TRUE without handlers, else the handlers' answer |
| Runtime.Runtime.QueryPlugin | src/gimo-runtime.c:191-208 | the owner |
| Runtime.Runtime.Setup | src/gimo-runtime.c:210-222 | an unowned runtime gets the owner; the table is unchanged |
| Runtime.Runtime.Teardown | src/gimo-runtime.c:224-236 | the matching owner is dropped; the table is unchanged |
| ExtPoint.GlobalId | src/gimo-extpoint.c:213-228 | "<plugin id>.<local id>", a NULL plugin id printed as "(null)" |
| ExtPoint.GlobalIdParses | src/gimo-extpoint.c:213-228 | the global id parses back into plugin id and dot-free local id |
| ExtPoint.ExtPoint.constructor | src/gimo-extpoint.c:156-163 | local id and name as given, no owner, no global id |
| ExtPoint.ExtPoint.QueryPlugin | src/gimo-extpoint.c:194-211 | the owner |
| ExtPoint.ExtPoint.Setup | src/gimo-extpoint.c:213-228 | adopts the owner and takes the global id |
| ExtPoint.ExtPoint.Teardown | src/gimo-extpoint.c:230-242 | the matching owner is dropped; the global id stays |
| ExtPoint.SortById | src/gimo-extpoint.c:244-251 | negative, zero or positive as strcmp of the local ids |
| ExtPoint.SearchById | src/gimo-extpoint.c:253-259 | negative, zero or positive as strcmp of the sought id and the local id |
| ExtPoint.SetupTeardown | src/gimo-extpoint.c:213-242 | setup then teardown leaves no owner and keeps the global id |
| ExtConfig.Configs.ToOption | src/gimo-extconfig.c:302-307 | NULL exactly for a missing array |
| ExtConfig.SortByName | src/gimo-extconfig.c:45-52 | the order is strcmp of the names |
| ExtConfig.SearchByName | src/gimo-extconfig.c:54-60 | the order is strcmp of the sought name and the name |
| ExtConfig.ComparatorsAgree | src/gimo-extconfig.c:45-60 | the sort and the search comparator agree, so a search over the sorted array is sound |
| ExtConfig.CloneSorted | src/gimo-extconfig.c:107-117 | NULL stays NULL; a given array becomes a sorted permutation of itself |
| ExtConfig.NewConfig | src/gimo-extconfig.c:206-215 | name and value as given; sub-configs cloned and sorted |
| ExtConfig.CloneSortedWellFormed | src/gimo-extconfig.c:107-117 | sorting well-formed configs keeps every level sorted |
| ExtConfig.GetConfigs | src/gimo-extconfig.c:302-307 | the sub-config array, NULL exactly when there is none |
| ExtConfig.GetConfig | src/gimo-extconfig.c:240-291 | the loop returns the lookup of the dotted path in the sub-configs (the corrected code: see Findings) |
| ExtConfig.SplitFirst | src/gimo-extconfig.c:257-262 | the first segment has no dot and rejoins with the rest into the path |
| ExtConfig.LookupStep | src/gimo-extconfig.c:265-285 | one loop turn: search the segment, then stop or descend into the match's sub-configs |
| ExtConfig.RejoinSplits | src/gimo-extconfig.c:257-262 | strchr on the rejoined path finds the cut exactly |
| ExtConfig.LookupSound | src/gimo-extconfig.c:240-291 | every config the lookup returns is named by the path, one segment per level |
| ExtConfig.LookupComplete | src/gimo-extconfig.c:240-291 | with unique names per level, every config the path names is the one found |
| ExtConfig.AsWrittenAgreesUnlessCrash | src/gimo-extconfig.c:240-291 | where the code as written does not dereference NULL, it returns what the corrected lookup returns |
| ExtConfig.AsWrittenCrashes | src/gimo-extconfig.c:277-285 | a path continuing past a config without sub-configs dereferences NULL as written |
| Extension.Extension.constructor | src/gimo-extension.c:229-240 | fields as given; configs NULL or a sorted permutation of the given array; no owner |
| Extension.Extension.GetConfig | src/gimo-extension.c:279-321 | no configs gives NULL; otherwise the dotted-path lookup |
| Extension.Extension.GetConfigValue | src/gimo-extension.c:323-331 | the found config's value, or NULL |
| Extension.Extension.GetConfigs | src/gimo-extension.c:343-361 | without a namespace the top-level array, otherwise the named config's sub-configs, or NULL |
| Extension.Extension.QueryPlugin | src/gimo-extension.c:371-388 | the owner |
| Extension.Extension.Setup | src/gimo-extension.c:390-405 | adopts the owner and takes the global id |
| Extension.Extension.Teardown | src/gimo-extension.c:407-419 | the matching owner is dropped; the global id stays |
| Extension.SortById | src/gimo-extension.c:421-428 | the order is strcmp of the local ids |
| Extension.SearchById | src/gimo-extension.c:430-436 | the order is strcmp of the sought id and the local id |
| Extension.GetConfigSingleSegment | src/gimo-extension.c:279-321 | a one-segment path finds a config exactly when a top-level config has that name |
| Loader.Loadable.constructor | src/gimo-loader.c:124-160 | the loaded object records its file name and factory |
| Loader.FindSuffix | src/gimo-loader.c:88-111 | the first entry for exactly that suffix, none before it, or none when no entry has it |
| Loader.Reversed | src/gimo-loader.c:277-305 | pushing at the head one by one reverses the order |
| Loader.Position | src/gimo-loader.c:307-339 | the first position of the directory, none before it |
| Loader.RemoveFirst | src/gimo-loader.c:307-339 | one occurrence removed, the rest kept |
| Loader.RemoveEach | src/gimo-loader.c:307-339 | remove_paths never lengthens the queue |
| Loader.RemoveAdded | src/gimo-loader.c:277-339 | removing a list of new, distinct directories just added gives back the queue before |
| Loader.SuffixOf | src/gimo-loader.c:472-480 | the text after the last '.', NULL without a dot |
| Loader.Chosen | src/gimo-loader.c:124-160 | the first entry that accepts the suffix and whose factory makes an object, none earlier |
| Loader.Candidates | src/gimo-loader.c:516-548 | the file name first, then for a relative name each search path joined to it |
| Loader.FirstLoaded | src/gimo-loader.c:516-548 | the first candidate that loads; none before it loads |
| Loader.CacheOrderMembers | src/gimo-loader.c:588-610 | the cache listing holds exactly the cached names |
| Loader.CacheOrderIncreasing | src/gimo-loader.c:588-610 | the cache listing is strictly ascending under the NULL-aware comparator |
| Loader.Loader.constructor | src/gimo-loader.c:260-268 | no paths or factories; an empty cache only when cached |
| Loader.Loader.Register | src/gimo-loader.c:389-421 | refused exactly when the suffix is taken; a suffix goes to the head, the wildcard to the tail |
| Loader.Loader.Unregister | src/gimo-loader.c:423-442 | the suffix's entry goes, the others stay in order |
| Loader.Loader.AddPaths | src/gimo-loader.c:277-305 | the split list, reversed, in front of the old queue |
| Loader.Loader.RemovePaths | src/gimo-loader.c:307-339 | the queue becomes RemoveEach of the listed directories |
| Loader.Loader.DupPaths | src/gimo-loader.c:350-377 | a copy of the queue, NULL exactly when it is empty |
| Loader.Loader.LoadFile | src/gimo-loader.c:124-160 | succeeds exactly when the file exists and the chosen factory's object loads it; the result is fresh and records the name |
| Loader.Loader.LoadFirst | src/gimo-loader.c:516-548 | the loop succeeds exactly at FirstLoaded |
| Loader.Loader.Load | src/gimo-loader.c:455-576 | NULL without a factory for the suffix; the cached object if any; otherwise the first candidate that loads, remembered by a cached loader |
| Loader.Loader.QueryCached | src/gimo-loader.c:588-610 | the cached objects in name order; NULL when uncached or empty |
| Loader.LoadTwice | src/gimo-loader.c:455-576 | a cached loader returns the same object twice; an uncached one a new object |
| Loader.PathsScenario | src/gimo-loader.c:277-377 | four distinct directories give four entries, and removing them leaves none |
| Plugin.Notices.constructor | src/gimo-context.c:1032-1043 | no notifications yet |
| Plugin.Notices.Emit | src/gimo-context.c:1032-1043 | appends one notification |
| Plugin.Elements | src/gimo-plugin.c:400-424 | the elements of an array; NULL has none |
| Plugin.SetupPoints | src/gimo-plugin.c:400-411 | every extension point is adopted by the plugin, with its global id |
| Plugin.SetupExtensions | src/gimo-plugin.c:413-424 | every extension is adopted by the plugin, with its global id |
| Plugin.AdoptPoints | src/gimo-plugin.c:400-411 | the sorted copy has no repeats and every element is adopted |
| Plugin.AdoptExtensions | src/gimo-plugin.c:413-424 | the sorted copy has no repeats and every element is adopted |
| Plugin.Targeting | src/gimo-plugin.c:843-870 | the extensions targeting the point, in array order |
| Plugin.PluginIn | src/gimo-context.c:742-770 | none for NULL, empty or unknown ids, else the filed plugin |
| Plugin.QueryPluginIn | src/gimo-context.c:742-770 | the filed plugin; NULL or empty ids give NULL without error; an unknown id gives NULL and NO_PLUGIN |
| Plugin.Plugin.constructor | src/gimo-plugin.c:648-671 | the strings as given; arrays cloned; extension points and extensions sorted by local id, each once, adopted; no context or module; UNINSTALLED |
| Plugin.Plugin.GetExtPoint | src/gimo-plugin.c:731-751 | the extension point with that local id, or NULL when none has it |
| Plugin.Plugin.GetExtension | src/gimo-plugin.c:762-782 | the extension with that local id, or NULL when none has it |
| Plugin.Plugin.QueryExtensions | src/gimo-plugin.c:843-870 | the targeting extensions in array order; NULL when none |
| Plugin.Plugin.Install | src/gimo-plugin.c:1007-1038 | context set, INSTALLED, module kept; with a found path, a plugin without a directory takes it and one with a directory gets it joined onto it by g_build_path |
| Plugin.Plugin.Uninstall | src/gimo-plugin.c:1040-1055 | module dropped, no context, UNINSTALLED |
| Plugin.Plugin.Finalize | src/gimo-plugin.c:318-351 | every extension point and extension loses its owner |
| Plugin.Plugin.LoadModule | src/gimo-plugin.c:101-170 | no loader or nothing loaded fails; a module loaded meanwhile wins; otherwise the module is kept only if the entry symbol resolves (corrected: see Findings) |
| Plugin.Plugin.QueryModule | src/gimo-plugin.c:172-271 | a held module at once; NULL without load; otherwise RESOLVED with one notification exactly when the module loads and every requirement is satisfied, else back to INSTALLED without a module |
| Plugin.Plugin.LoadAndResolve | src/gimo-plugin.c:195-270 | NO_OBJECT outside a context, LOAD when loading fails; success exactly when all requirements are satisfied |
| Plugin.Plugin.Acquire | src/gimo-plugin.c:195-218 | NO_OBJECT outside a context; LOAD when the module does not load; otherwise the module is kept and the plugin RESOLVED |
| Plugin.Plugin.ResolveAndAnnounce | src/gimo-plugin.c:222-266 | announces (INSTALLED, RESOLVED) exactly when all requirements are satisfied |
| Plugin.Plugin.ResolveRequirements | src/gimo-plugin.c:222-259 | true exactly when every requirement names an installed plugin with a module |
| Plugin.Plugin.ResolveRequirement | src/gimo-plugin.c:230-243 | true exactly when the requirement is satisfied afterwards |
| Plugin.Plugin.Start | src/gimo-plugin.c:950-977 | an ACTIVE plugin succeeds at once; otherwise ACTIVE exactly when the module resolves and the handlers agree |
| Plugin.Plugin.Stop | src/gimo-plugin.c:979-1005 | only an ACTIVE or STARTING plugin with a module goes back to RESOLVED |
| Plugin.Plugin.Define | src/gimo-plugin.c:906-915 | binds the object exactly when nothing is bound under the symbol |
| Plugin.Plugin.Resolve | src/gimo-plugin.c:926-948 | a bound object wins; otherwise the module's symbol, or NULL when there is no module |
| Plugin.StartStandalone | src/gimo-plugin.c:950-977 | a plugin without requirements whose module loads ends ACTIVE and was announced RESOLVED |
| Plugin.AsWrittenKeepsFailedModule | src/gimo-plugin.c:155-166 | as written, the first query fails but the second hands out the module whose symbol did not resolve |
| Pluginfo.CloneArray | src/gimo-pluginfo.c:75-99 | NULL stays NULL; the same elements in order, each handed to the hook when there is one |
| Pluginfo.InfoIn | src/gimo-context.c:742-770 | the descriptor under a known id, else none |
| Pluginfo.Pluginfo.constructor | src/gimo-pluginfo.c:496-517 | fields as given, arrays cloned; no context or plugin; UNINSTALLED |
| Pluginfo.Pluginfo.Install | src/gimo-pluginfo.c:677-688 | context set, INSTALLED, plugin kept |
| Pluginfo.Pluginfo.Uninstall | src/gimo-pluginfo.c:690-698 | no context, UNINSTALLED, plugin kept |
| Pluginfo.Pluginfo.LoadPlugin | src/gimo-pluginfo.c:101-189 | a cached plugin at once; otherwise RESOLVED with one notification exactly when the plugin loads and every requirement is satisfied, else INSTALLED and nothing cached |
| Pluginfo.Pluginfo.LoadRequires | src/gimo-pluginfo.c:141-178 | true exactly when every requirement names a known descriptor whose plugin is loaded |
| Pluginfo.Pluginfo.Resolve | src/gimo-pluginfo.c:662-675 | always NULL, after loading as load_plugin does |
| Pluginfo.Lifecycle | src/gimo-pluginfo.c:496-698 | new, installed, uninstalled: the states follow and the descriptor may be finalised |
| Pluginfo.LoadAlone | src/gimo-pluginfo.c:101-189 | a descriptor without requirements loads, becomes RESOLVED and announces it |
| Context.ExtPointIn | src/gimo-context.c:817-850 | none without a dot; a found point belongs to the plugin named by the prefix and has the local id |
| Context.ExtPointOfGlobalId | src/gimo-context.c:817-850 | a plugin's extension point is found under its global id |
| Context.ExtPointGoneAfterUninstall | src/gimo-context.c:506-539 | after its plugin leaves the registry, no extension point of it is found |
| Context.TargetsSound | src/gimo-context.c:863-885 | every collected extension targets the point and belongs to a listed plugin |
| Context.TargetsComplete | src/gimo-context.c:863-885 | every targeting extension of a listed plugin is collected |
| Context.CollectStep | src/gimo-context.c:241-266 | one plugin's targeting extensions appended, the array created on the first |
| Context.AllTargetsMembers | src/gimo-context.c:863-885 | an extension is listed exactly when an installed plugin has it and it targets the point |
| Context.ListingInOrder | src/gimo-context.c:230-239 | the plugins in key order list each installed plugin once, ids ascending |
| Context.Context.constructor | src/gimo-context.c:285-373 | an empty registry and no paths, then both core plugins installed, the loaders bound; each core plugin holds its module exactly when the module loads with its entry symbol, and is ACTIVE exactly when it holds it and its start handlers agree, else RESOLVED or INSTALLED |
| Context.Context.InstallCorePlugins | src/gimo-context.c:311-373 | both core plugins filed in turn, each left in the state its start gives (`StartedAlone`); the second start leaves the first plugin untouched |
| Context.Context.StartCorePlugin | src/gimo-context.c:311-346 | the file loader plugin, with both loaders defined, filed; ACTIVE exactly when its module loads and its start handlers agree, else RESOLVED with its module or INSTALLED without one |
| Context.Context.StartXmlPlugin | src/gimo-context.c:348-372 | the XML archive plugin filed beside the plugins already there, which stay unchanged; its state after the start as for the file loader plugin |
| Context.Context.InstallAndStart | src/gimo-context.c:344-345 | installed without a directory, then started: the start succeeds exactly when the plugin is ACTIVE, that is when its module loads, its requirements hold and the handlers agree; a plugin without requirements changes no other plugin |
| Context.Context.MakeCorePlugin | src/gimo-context.c:311-342 | the file loader plugin with "archive" and "module" points and both loaders bound |
| Context.Context.MakeXmlPlugin | src/gimo-context.c:348-365 | the XML archive plugin extending "org.gimo.core.loader.archive" |
| Context.Context.InstallPlugin | src/gimo-context.c:467-504 | INVALID_ID for a NULL or empty id, CONFLICT for a filed id; otherwise filed, installed and announced once |
| Context.Context.UninstallPlugin | src/gimo-context.c:506-539 | NULL, empty or unknown ids change nothing; otherwise the plugin leaves, is UNINSTALLED, and is announced |
| Context.Context.QueryPlugin | src/gimo-context.c:742-770 | the filed plugin, with NO_PLUGIN for an unknown id |
| Context.Context.QueryPlugins | src/gimo-context.c:782-804 | NULL for an empty registry, else each plugin once in ascending id order |
| Context.Context.QueryExtPoint | src/gimo-context.c:817-850 | NULL for no dot, an unknown plugin (NO_PLUGIN) or no such point (NO_EXTPOINT); else ExtPointIn |
| Context.Context.QueryExtensions | src/gimo-context.c:863-885 | the targeting extensions, plugins in ascending id order; NULL when none |
| Context.Context.ResolveExtPoint | src/gimo-context.c:898-925 | the owner's resolve of the point's local id; NULL without such a point |
| Context.Context.CoreLoaderPoints | src/gimo-context.c:565-579 | the core points resolve to the context's two loaders |
| Context.Context.ResolveLoaders | src/gimo-context.c:565-579 | both loaders resolve while the file loader plugin holds them |
| Context.Context.PushPaths | src/gimo-context.c:581-590 | each directory pushed at the head: the split list, reversed, before the old paths |
| Context.Context.AddPaths | src/gimo-context.c:548-604 | NULL or unresolved loaders change nothing; otherwise paths pushed and both loaders get the list |
| Context.Context.InstallItem | src/gimo-context.c:118-139 | a plugin is installed, anything else skipped |
| Context.Context.InstallAt | src/gimo-context.c:118-139 | installs exactly a not-yet-filed plugin; a failed install changes nothing |
| Context.Context.LoadArchive | src/gimo-context.c:97-147 | the count of installs that succeeded, one new registry entry each; every returned plugin is filed, every plugin the archive lists with a non-empty id has that id filed afterwards, and an archive whose plugins are all filed installs nothing |
| Context.Context.InstallItems | src/gimo-context.c:115-142 | the loop: each success files one more plugin; an archive whose plugins are all filed installs nothing |
| Context.ReloadScenario | src/gimo-context.c:97-147 | loading the same archive twice: the second load installs nothing |
| XmlTransform.ScanLong | src/gimo-xmlarchive.c:92-124 | "%ld": blanks skipped, optional sign, at least one digit, the value clamped to a long |
| XmlTransform.ScanDecimal | src/gimo-xmlarchive.c:92-124 | a decimal number with or without '-' reads back as itself |
| XmlTransform.FindNamed | src/gimo-xmlarchive.c:92-124 | the first entry with that name |
| XmlTransform.FirstWord | src/gimo-xmlarchive.c:92-124 | the first blank-delimited word |
| XmlTransform.EnumByName | src/gimo-xmlarchive.c:92-124 | a known name, after blanks and before a blank, selects its value |
| XmlTransform.EnumByNumber | src/gimo-xmlarchive.c:92-124 | a number that is not a name is read as a number |
| XmlTransform.TransformEnum | src/gimo-xmlarchive.c:92-124 | the loop agrees with the enum transform |
| XmlTransform.FlagWords | src/gimo-xmlarchive.c:126-168 | the maximal runs between blanks and '|' |
| XmlTransform.FlagsJoin | src/gimo-xmlarchive.c:126-168 | "A\|B" holds the bits of both |
| XmlTransform.FlagsSingle | src/gimo-xmlarchive.c:126-168 | one name gives exactly its value |
| XmlTransform.FlagWordsSep | src/gimo-xmlarchive.c:126-168 | a trailing separator adds no word |
| XmlTransform.TransformFlags | src/gimo-xmlarchive.c:126-168 | the loop ors every word's bits: the flags transform |
| XmlArchive.FirstAttr | src/gimo-xmlarchive.c:176-190 | the first attribute with the key |
| XmlArchive.AttrAt | src/gimo-xmlarchive.c:176-190 | index -1 searches all; index k only the k-th |
| XmlArchive.FindAttr | src/gimo-xmlarchive.c:176-190 | the loop returns AttrAt |
| XmlArchive.ClassFromName | src/gimo-xmlarchive.c:192-212 | the named type, only when it is an object class |
| XmlArchive.Convert | src/gimo-xmlarchive.c:650-703 | the conversion as the reader runs it equals the transform |
| XmlArchive.AttrParam | src/gimo-xmlarchive.c:214-292 | an attribute gives a parameter only for a property that converts |
| XmlArchive.AttrParamsNamed | src/gimo-xmlarchive.c:294-338 | every parameter names a class property, at most one per attribute |
| XmlArchive.CreateFrame | src/gimo-xmlarchive.c:294-338 | the frame loop builds NewFrame |
| XmlArchive.PushKeepsStack | src/gimo-xmlarchive.c:379-497 | a pushed frame keeps the stack well-shaped |
| XmlArchive.Attach | src/gimo-xmlarchive.c:232-292 | an array appends; an object records the property; other types are ignored |
| XmlArchive.SetText | src/gimo-xmlarchive.c:232-292 | the converted text is recorded when it converts |
| XmlArchive.ReplaceKeepsStack | src/gimo-xmlarchive.c:529-544 | updating a parent keeps the stack's shape |
| XmlArchive.PopKeepsStack | src/gimo-xmlarchive.c:547-550 | popping keeps the stack's shape |
| XmlArchive.Closing | src/gimo-xmlarchive.c:505-551 | a closed object goes to its parent or the archive, a taken id sets the error; the frame is popped |
| XmlArchive.Texting | src/gimo-xmlarchive.c:553-573 | scalar text is recorded on the parent object |
| XmlArchive.Apply | src/gimo-xmlarchive.c:379-573 | one event keeps the reader's state sound |
| XmlArchive.Run | src/gimo-xmlarchive.c:379-573 | a nested run keeps the state sound |
| XmlArchive.ErrorSticky | src/gimo-xmlarchive.c:387-388 | once set, the error flag stays set |
| XmlArchive.CompleteRunClosesAll | src/gimo-xmlarchive.c:499-551 | a fully accepted document leaves no frame |
| XmlArchive.TruncatedRootStaysOpen | src/gimo-xmlarchive.c:469-496 | a document cut after its root leaves the root's frame open |
| XmlArchive.RunKeepsObjects | src/gimo-xmlarchive.c:534-535 | stored objects stay under their ids |
| XmlArchive.DuplicateIdFails | src/gimo-xmlarchive.c:533-536 | a taken id sets the error and keeps the stored object |
| XmlArchive.RootRule | src/gimo-xmlarchive.c:469-496 | the root must be "archive" with version "1.0" |
| XmlArchive.ObjectRule | src/gimo-xmlarchive.c:437-467 | an object needs "class" first, names an object class; its id is the second attribute |
| XmlArchive.UnknownClassSkipped | src/gimo-xmlarchive.c:449-457 | no class or a non-object class skips without error |
| XmlArchive.ParseContext.constructor | src/gimo-xmlarchive.c:358-369 | no frames, depth 0, no error |
| XmlArchive.ParseContext.StartElement | src/gimo-xmlarchive.c:379-497 | the state becomes Apply of the start tag, errors reported |
| XmlArchive.ParseContext.StartRoot | src/gimo-xmlarchive.c:469-496 | the root branch gives RootOpening |
| XmlArchive.ParseContext.StartObject | src/gimo-xmlarchive.c:437-467 | the object branch gives ObjectOpening |
| XmlArchive.ParseContext.StartInner | src/gimo-xmlarchive.c:390-436 | the inner branches give InnerOpening |
| XmlArchive.ParseContext.EndElement | src/gimo-xmlarchive.c:499-551 | the state becomes Apply of the end tag |
| XmlArchive.ParseContext.CloseTop | src/gimo-xmlarchive.c:510-550 | the state becomes Closing |
| XmlArchive.ParseContext.HandleText | src/gimo-xmlarchive.c:553-573 | the state becomes Apply of the text |
| XmlArchive.ParseContext.Feed | src/gimo-xmlarchive.c:379-573 | the state becomes Apply of the event |
| XmlArchive.FeedChunk | src/gimo-xmlarchive.c:603-604 | the run extends by the chunk's events |
| XmlArchive.ParseChunk | src/gimo-xmlarchive.c:603-604 | one chunk's events fed |
| XmlArchive.ParseNext | src/gimo-xmlarchive.c:602-614 | one chunk fed; a rejected chunk is LOAD with its reason and line |
| XmlArchive.Parse | src/gimo-xmlarchive.c:602-618 | the state is the run over the chunks fed |
| XmlArchive.Read | src/gimo-xmlarchive.c:575-628 | OPEN_FILE for an unopened file; success exactly when all chunks were accepted and no handler error, and then the run leaves no frame open; after any read of an open file the archive holds what the run over the chunks fed added, so objects added before an error stay |
| XmlArchive.ReadAsWritten | src/gimo-xmlarchive.c:620-622 | as written, the frame stack is asserted empty whatever the outcome |
| XmlArchive.TruncatedArchiveAborts | src/gimo-xmlarchive.c:622 | a file cut after its root makes the reader as written abort |
| XmlArchiveLegacy.RootOpening | src/plugins/gimo-xmlarchive.c:188-215 | the root must be "archive" with version "1.0" |
| XmlArchiveLegacy.Apply | src/plugins/gimo-xmlarchive.c:121-227 | one event keeps the state sound |
| XmlArchiveLegacy.Run | src/plugins/gimo-xmlarchive.c:121-227 | a nested run keeps the state sound |
| XmlArchiveLegacy.ErrorSticky | src/plugins/gimo-xmlarchive.c:121-216 | once set, the error flag stays set |
| XmlArchiveLegacy.CompleteRunClosesAll | src/plugins/gimo-xmlarchive.c:218-227 | a fully accepted document leaves no frame |
| XmlArchiveLegacy.TruncatedObjectStaysOpen | src/plugins/gimo-xmlarchive.c:149-186 | a document cut inside its first object leaves both frames open |
| XmlArchiveLegacy.ObjectRule | src/plugins/gimo-xmlarchive.c:149-186 | pushed exactly with "object", an id, a class and a registered type; otherwise an error |
| XmlArchiveLegacy.ParseContext.constructor | src/plugins/gimo-xmlarchive.c:88-98 | no frames, depth 0, no error |
| XmlArchiveLegacy.ParseContext.StartElement | src/plugins/gimo-xmlarchive.c:121-216 | the state becomes Apply of the start tag |
| XmlArchiveLegacy.ParseContext.StartRoot | src/plugins/gimo-xmlarchive.c:188-215 | the root branch gives RootOpening |
| XmlArchiveLegacy.ParseContext.StartObject | src/plugins/gimo-xmlarchive.c:149-186 | the object branch gives ObjectOpening |
| XmlArchiveLegacy.ParseContext.EndElement | src/plugins/gimo-xmlarchive.c:218-227 | the state becomes Apply of the end tag |
| XmlArchiveLegacy.ParseContext.Feed | src/plugins/gimo-xmlarchive.c:121-233 | the state becomes Apply of the event |
| XmlArchiveLegacy.FeedChunk | src/plugins/gimo-xmlarchive.c:263-266 | the run extends by the chunk's events |
| XmlArchiveLegacy.ParseChunk | src/plugins/gimo-xmlarchive.c:263-266 | one chunk's events fed |
| XmlArchiveLegacy.Parse | src/plugins/gimo-xmlarchive.c:263-279 | the state is the run; a rejected chunk is IMPORT |
| XmlArchiveLegacy.Read | src/plugins/gimo-xmlarchive.c:235-288 | OPEN_FILE for an unopened file; success exactly when all chunks were accepted and no start tag rejected |
| XmlArchiveLegacy.ReadAsWritten | src/plugins/gimo-xmlarchive.c:281-282 | as written, the frame stack is asserted empty whatever the outcome |
| XmlArchiveLegacy.TruncatedArchiveAborts | src/plugins/gimo-xmlarchive.c:282 | a file cut inside its first object makes the reader as written abort |

## Left out

- **File and directory I/O.** Enumerating plugin directories in `_gimo_context_load_plugins` and `gimo_context_load_plugin` is left out, because it is directory I/O. `Context.Context.LoadArchive` starts once the archive's objects are in hand.
- **Archive saving and listing.** `gimo_archive_save`, `gimo_archive_query_objects` and the per-class `save` functions are not modelled. The save functions are stubs that return FALSE.
- **The expat tokenizer.** The tokenizer itself is not modelled. Its events arrive as chunks, and the readers are modelled on them.
- **Numeric conversions.** Only the `%ld` scan is modelled. The float and double conversions are left out, because they are floating point. The other integer formats (`%d`, `%u`, `%lu` and the 64-bit ones) are left out because each needs its own width and wrap-around rule; their text is kept unconverted (`NumberValue`).
- **Module back ends.** The dl, Python and JavaScript module implementations, the signal bus, the cfgelement stubs and the loader manager are context for the core and are not part of this model.
- **Locks.** Mutexes and G_LOCK sections are left out, because the model is sequential. This includes the pluginfo lock that is never released on one path.
- **Warnings and reference counts.** `g_warning` output and reference counting (ref/unref) are not modelled.
- **Extern declarations in gimo-pluginfo.c.** `_gimo_extpoint_setup` and `_gimo_context_load_plugin` are declared there but defined nowhere. The descriptor's setup hook is therefore modelled only as the order in which elements are handed to it (`Pluginfo.CloneArray`).
- **Pluginfo stubs and getters.** `gimo_pluginfo_start` and `gimo_pluginfo_stop` only return success, so they are not modelled. The getters and `gimo_pluginfo_query_context` return the descriptor's fields, which the model exposes directly.
- **Legacy context lookup.** The earlier context's registry lookup is a map lookup (`Pluginfo.InfoIn`).
- **Error table.** The error-name table is a parameter of `ErrorSlot.LastError.DupErrorString`, because its macro list is not part of this model.
- **Type-system and loader oracles.** GType registration, `g_object_newv` and the module, factory and file oracles are parameters.
- **Optional requirements.** The optional flag is ignored, as in the source.
- XmlTransform.TransformFlags: restructured as a loop that skips separators, then reads one word. It computes the same or of bits as the source's loop. The source's `stop` flag is not modelled.
- XmlTransform.ScanLong: out-of-range values are clamped to the range of a 64-bit long, as glibc's `strtol` does. C leaves this undefined for `sscanf`.
- Context.Context.constructor: the XML archive plugin's start handler is not modelled. In the source it registers an "xml" factory on the archive loader, so after a successful start the archive loader is not empty. The model states `archiveLoader.loaders == []` and gives only the handlers' answer, as the parameter `xmlHandlers`.
- ErrorSlot.LastError.SetErrorString: the string is stored as an already formatted message. In the source it is passed to `gimo_set_error_full` as a printf format, so `%%` becomes `%` and a conversion such as `%s` reads an argument that was never passed.
- Context.Context.LoadArchive: the installed plugins are stated as filed in the registry and counted. The model does not state that the output array holds them in archive order.
- Plugin.Plugin.QueryModule: termination of the mutual recursion over requirements is proved by a ghost set of plugins still without a module. A cycle of requirements therefore terminates as in the source, which marks a plugin RESOLVED before it recurses.

## Findings

| source | as written | input that shows it | evidently intended | confidence | as-written member | corrected member |
|---|---|---|---|---|---|---|
| src/gimo-extconfig.c:277-285 | after a matched segment with more segments left, the loop searches the match's sub-config array without checking it for NULL | a config "root" with a child "a" that has no sub-configs, asked for "a.b" | a miss (NULL) when a matched config has no sub-configs | not executed | ExtConfig.AsWrittenCrashes | ExtConfig.GetConfig |
| src/gimo-plugin.c:155-166 | the module is stored as the runtime before the entry symbol is resolved, and kept when that fails | a module whose entry symbol does not resolve: the first query fails, and the second returns the module | keep the module only once its entry symbol resolves | not executed | Plugin.AsWrittenKeepsFailedModule | Plugin.Plugin.LoadModule |
| src/gimo-xmlarchive.c:622 | the frame stack is asserted empty after the loop, even when the loop stopped at a parse error | a file whose only chunk is `<archive version="1.0">` and is rejected as incomplete | report the failure and free the remaining frames | not executed | XmlArchive.TruncatedArchiveAborts | XmlArchive.Read |
| src/plugins/gimo-xmlarchive.c:282 | the same assertion in the earlier reader | a file cut off inside its first object | report the failure and free the remaining frames | not executed | XmlArchiveLegacy.TruncatedArchiveAborts | XmlArchiveLegacy.Read |
