# Trigger routing and key permissions of the worker's application metadata

This project is a Dafny model of `src/worker/app_meta.rs`: the part of the
serverless worker that decides which keys a function may read, write or delete,
and which functions a write to a key must trigger.

- **Key patterns** (`KeyPatterns`, `key_pattern.dfy`). A key pattern is a template string such as `"user_{}_{}"`. Each `{}` stands for one or more ASCII letters or digits, and every other character stands for itself. A key matches only when the whole key is covered. Templates are tokenized into literal and placeholder segments, and matching is a recursive predicate over those segments. A second, declarative definition says the key is the template with each placeholder replaced by a non-empty alphanumeric run. The two definitions are proved equal.
- **UTF-8** (`Utf8`, `utf8.dfy`). `FnMeta::match_key` receives raw bytes and first decodes them with `std::str::from_utf8`. The model's decoder accepts exactly the well-formed sequences of section 4 of RFC 3629, and it is proved to be the inverse of the encoding of section 3 of RFC 3629.
- **Function metadata** (`FnMetas`, `fn_meta.dfy`). This covers the events that trigger a function, its argument bindings, and its ordered list of key permissions (`KvMeta`). It includes the access decision `match_key`, the slot lookup, the trigger confirmation `find_will_trigger_kv_event`, and the conversion from the declaration, which rejects unknown operation names.
- **Application metadata** (`AppMetas`, `app_meta.dfy`). This is a name-to-function table, plus the lookup of the function that serves HTTP calls.
- **Registry** (`Registry`, `registry.dfy`). `AppMetaManager` is a class with two fields, updated in place:
  - the application table;
  - the reverse index from a pattern's template string to the `(app, fn)` pairs that a `set` on that pattern triggers.

  `LoadAllAppMeta` is the loading loop over applications, functions and events. It is proved against a functional specification (`LoadApps`), and lemmas state what that specification does to both tables.

Each loop of the code is a method proved equal to a recursive reference function, and the lemmas state what those functions compute:

- `FnMeta.MatchKey` is proved equal to `MatchKeySpec`, which decodes the key and then applies `FirstGranting` to the permission list.
- `KvMetaFromYaml` is proved equal to `KvMetaSpec`, and `FnMetaFromYaml` to `FnMetaSpec`, which converts the permission list with `KvsSpec`.
- `AppMetaFromYaml` is proved equal to `AppMetaSpec`, which folds `ConvertFns` over the function names.
- In the registry, `PushFnTriggers` is proved equal to `IndexEvents`, `PushAppTriggers` to `IndexFns`, and `LoadAllAppMeta` to `LoadApps`. `LoadTriggers` lists, in discovery order, the pairs a load adds under one template.

How the model treats things outside the code:

- **Rust `HashMap` iteration order.** The code does not control it. Wherever the code iterates a `HashMap`, the model takes the order as a parameter `order`, which lists each key once (`IsEnumeration`).
- **`BTreeMap`.** The `kvs` declaration is a `BTreeMap`. It is modelled as an association list whose keys are strictly ascending (`KvsYaml`).
- **Panics.** The two panics of loading become `Failure` values that carry the reason: an unknown operation name (src/worker/app_meta.rs:318) and a `kv_set` index outside the permission list (:420). The unwrap in `get_kv_meta_by_index_unwrap` (:225) becomes the `requires` of `FnMeta.GetKvMeta` and `FnMeta.FindWillTriggerKvEvent`. The panics of `Regex::new`, `AppMetaYaml::read` and the directory walk are listed under "## Left out".
- **Loading input.** The directory listing and YAML parsing of `load_all_app_meta` are replaced by a sequence of `AppEntry` values: the application name, its parsed declaration, and its function order.

## Model

| member | source | states |
|---|---|---|
| Utf8.Decode | src/worker/app_meta.rs:182-186 | `std::str::from_utf8`: accepted bytes give a text of one to four bytes per character |
| Utf8.DecodeFirst | src/worker/app_meta.rs:182-186 | a decoded first character occupies exactly the number of bytes its lead byte announces, and no more than there are |
| Utf8.DecodeEncode | src/worker/app_meta.rs:182-186 | every string's UTF-8 encoding decodes back to that string |
| Utf8.EncodeDecode | src/worker/app_meta.rs:182-186 | whatever the decoder accepts is exactly the encoding of the text it returns |
| Utf8.DecodeIsInverseOfEncode | src/worker/app_meta.rs:182-186 | bytes decode to a string exactly when they are that string's encoding |
| KeyPatterns.KeyPattern.MatchKey | src/worker/app_meta.rs:266-284 | `KeyPattern::match_key`: a matching key is at least as long as the template has segments, because every placeholder takes at least one character; its full meaning is `MatchKeyIffInstance` |
| KeyPatterns.Tokenize | src/worker/app_meta.rs:267 | the segment list is never longer than the template |
| KeyPatterns.RenderTokenize | src/worker/app_meta.rs:267 | tokenizing a template loses nothing: its segments render back to it, with no literal `{` followed by a literal `}` |
| KeyPatterns.TokenizeRender | src/worker/app_meta.rs:267 | canonical segments are exactly what their rendering tokenizes to |
| KeyPatterns.PlaceholderTakesRun | src/worker/app_meta.rs:267 | a placeholder accepts any non-empty alphanumeric run followed by whatever the rest of the template accepts |
| KeyPatterns.InstanceMatches | src/worker/app_meta.rs:266-284 | the template, with each placeholder filled by a non-empty alphanumeric run, always matches |
| KeyPatterns.MatchHasRuns | src/worker/app_meta.rs:266-284 | every matching key is such an instance; the lemma returns the runs |
| KeyPatterns.MatchKeyIffInstance | src/worker/app_meta.rs:266-284 | `match_key` holds if and only if the whole key is the template with one non-empty `[a-zA-Z0-9]` run per `{}` |
| KeyPatterns.LiteralTemplateMatchesItself | src/worker/app_meta.rs:266-284 | a template without `{}` matches its own text and nothing else |
| KeyPatterns.MatchCoversEverySegment | src/worker/app_meta.rs:279 | a matching key is at least as long as the template has segments, since no placeholder matches the empty string |
| KeyPatterns.ExampleMatches | src/worker/app_meta.rs:441-445 | `"xxxx_{}_{}"` matches `"xxxx_abc_123"` |
| KeyPatterns.ExampleEmptyRunRejected | src/worker/app_meta.rs:267-279 | `"xxxx_{}_{}"` does not match `"xxxx_a_"`, where the last placeholder would stand for nothing |
| FnMetas.EventFromYaml | src/worker/app_meta.rs:28-35 | `http_app` becomes `HttpApp`; `kv_set: i` becomes `KvSet(i)` with the same index |
| FnMetas.ArgFromYaml | src/worker/app_meta.rs:49-56 | `http_text` becomes `HttpText`; `kv_key: i` becomes `KvKey(i)` with the same index |
| FnMetas.StringLessIrreflexive | src/worker/app_meta.rs:114 | the key order of a `BTreeMap<String, _>` is strict, so its keys are pairwise distinct |
| FnMetas.FnMeta.TryGetKvMeta | src/worker/app_meta.rs:216-221 | it returns `Some(kvs[i])` if and only if `kvs` is present and `i < len(kvs)`, and `None` otherwise |
| FnMetas.FnMeta.GetKvMeta | src/worker/app_meta.rs:224-226 | callers must supply a valid slot, and the result is the slot's permission |
| FnMetas.FnMeta.MatchKey | src/worker/app_meta.rs:181-214 | the scan with early returns computes exactly the pattern of the first permission, in list order, that matches the decoded key and allows the operation |
| FnMetas.FirstGrantingNoneIff | src/worker/app_meta.rs:188-209 | the scan over the permission list comes back empty if and only if no entry both matches the key and allows the operation |
| FnMetas.FirstGrantingIff | src/worker/app_meta.rs:188-209 | the result is `Some(p)` if and only if the first permission that both matches and allows has pattern `p`; an entry that matches but denies is skipped; the result is `None` if and only if no entry does both |
| FnMetas.MatchKeyDecidesAccess | src/worker/app_meta.rs:181-214 | the result is `None` for bytes that are not UTF-8, and `None` when `kvs` is absent, whatever the operation; otherwise the first authorising permission's pattern, or `None` if and only if none authorises |
| FnMetas.FnMeta.FindTriggerFrom | src/worker/app_meta.rs:242-255 | the `find_map` scan from event `k` on finds something only for `Set`, and what it finds is one of the function's permissions, carrying the pattern asked for |
| FnMetas.FnMeta.FindWillTriggerKvEvent | src/worker/app_meta.rs:241-256 | `find_will_trigger_kv_event`: a result is only ever returned for `Set`, and it is one of the function's permissions whose pattern is string-equal to the argument; which one is `FindWillTriggerKvEventIff` |
| FnMetas.FindTriggerFromIff | src/worker/app_meta.rs:241-256 | the scan from any event on finds a permission if and only if the operation is `Set` and a later `KvSet` event's slot holds a string-equal pattern; it returns the first such slot |
| FnMetas.FindWillTriggerKvEventIff | src/worker/app_meta.rs:241-256 | the result is `Some` if and only if the operation is `Set` and some `KvSet` event's slot pattern is string-equal to the argument; it is the first such slot in event order and carries that pattern; `HttpApp` events never contribute |
| FnMetas.FirstInvalidOp | src/worker/app_meta.rs:310-319 | the result is `None` if and only if every name is set, get or delete; otherwise it is the first name that is not |
| FnMetas.KvMetaSpec | src/worker/app_meta.rs:306-327 | conversion succeeds if and only if every listed name is an operation; each flag is set if and only if its name is listed; the pattern is the entry's key; a failure names a listed non-operation |
| FnMetas.KvMetaFromYaml | src/worker/app_meta.rs:307-327 | the flag-setting loop with its panic computes exactly the permission or failure above |
| FnMetas.KvsSpecProperties | src/worker/app_meta.rs:303-330 | the permission list has one entry per `kvs` entry, in the same order, each converted from its own entry; it fails if and only if some entry lists an unknown name |
| FnMetas.FnMetaFromYaml | src/worker/app_meta.rs:301-342 | the conversion loop computes exactly the declared function metadata, or the failing operation name |
| FnMetas.FnMetaFromYamlProperties | src/worker/app_meta.rs:301-342 | conversion fails if and only if an unknown operation is listed; events and arguments map one to one in order; permissions follow the ascending key order with the declared flags, so their patterns are pairwise distinct and strictly ascending |
| AppMetas.AppMeta.GetFnMeta | src/worker/app_meta.rs:356-358 | the function's metadata is returned if and only if the name is declared |
| AppMetas.AppMeta.HttpTriggerFn | src/worker/app_meta.rs:359-367 | a returned name is a declared function whose events include `HttpApp`; the result is `None` if and only if no function declares `HttpApp` |
| AppMetas.FirstHttpFn | src/worker/app_meta.rs:359-367 | the result is the first name, in iteration order, whose function declares `HttpApp` |
| AppMetas.HttpTriggerFnUnique | src/worker/app_meta.rs:359-367 | with exactly one HTTP-triggered function, that function is returned whatever the iteration order |
| AppMetas.HttpTriggerFnDependsOnOrder | src/worker/app_meta.rs:359-367 | with two HTTP-triggered functions, the two iteration orders give different answers |
| AppMetas.AppMetaFromYaml | src/worker/app_meta.rs:344-353 | the conversion loop over the function map computes exactly the specified application metadata, or the first failing operation name |
| AppMetas.ConvertFnsProperties | src/worker/app_meta.rs:344-353 | converting the names in `order` succeeds if and only if each function converts; each listed name maps to its own conversion, and the other entries are untouched |
| AppMetas.AppMetaFromYamlProperties | src/worker/app_meta.rs:344-353 | conversion succeeds if and only if every function converts; the function names are the same, each mapped to its own declaration's conversion |
| AppMetas.AppMetaSpecKeys | src/worker/app_meta.rs:344-353 | a converted application declares exactly the function names of its declaration |
| Registry.AppMetaManager.constructor | src/worker/app_meta.rs:371-376 | both tables start empty |
| Registry.AppMetaManager.GetAppMeta | src/worker/app_meta.rs:377-379 | the application is returned if and only if it is in the table |
| Registry.AppMetaManager.GetPatternTriggers | src/worker/app_meta.rs:380-385 | an exact-string lookup of the template in the index |
| Registry.AppMetaManager.PushFnTriggers | src/worker/app_meta.rs:415-427 | pushing one function's `kv_set` events onto the index in place leaves the application table alone, and on success the index is exactly the specified one; a missing slot is reported as the specified error |
| Registry.AppMetaManager.PushAppTriggers | src/worker/app_meta.rs:414-428 | pushing every function of one application, in iteration order, leaves the application table alone and yields exactly the specified index, or the specified error |
| Registry.AppMetaManager.LoadAllAppMeta | src/worker/app_meta.rs:391-431 | the nested loops, which push onto the index in place and then insert each application, succeed if and only if the specified load succeeds, fail with the same error, and leave both tables equal to the specified result |
| Registry.IndexEventsAppends | src/worker/app_meta.rs:415-427 | one function's events succeed if and only if every `KvSet` slot exists; each template's list becomes its old list followed by one `(app, fn)` per `KvSet` event on that template; `HttpApp` events add nothing |
| Registry.IndexFnsAppends | src/worker/app_meta.rs:414-428 | one application succeeds if and only if every function's `KvSet` slots exist; each template's list becomes its old list followed by the pairs of each function in turn |
| Registry.LoadAppsSucceeds | src/worker/app_meta.rs:391-431 | a load succeeds if and only if every application converts and each of its `kv_set` events names an existing slot |
| Registry.LoadAppsIndex | src/worker/app_meta.rs:391-431 | after a successful load, each template's list is its old list followed by all discovered pairs in discovery order; nothing is removed or reordered and duplicates stay; the template is a key of the index if and only if it was before or some pair was discovered for it |
| Registry.LoadAppsTable | src/worker/app_meta.rs:429 | after a load, an application name is present if and only if it was present before or was loaded; it maps to the conversion of the last declaration loaded under that name; other names are unchanged |
| Registry.InFnsTriggers | src/worker/app_meta.rs:414-428 | a pair is contributed by an application if and only if it names one of its functions with at least one `KvSet` event on the template |
| Registry.InLoadTriggers | src/worker/app_meta.rs:391-431 | a pair is discovered by a load if and only if some loaded application of that name has that function with a `KvSet` event on the template |
| Registry.TriggerCountPositive | src/worker/app_meta.rs:415-425 | a function contributes a pair to a template if and only if one of its events triggers on a pattern string-equal to it |
| Registry.LoadedIndexIsConfirmed | src/worker/app_meta.rs:414-429 | after a load into empty tables of distinctly named applications, `(app, fn)` is listed under a template if and only if `app` is loaded, has `fn`, and `fn`'s `find_will_trigger_kv_event` confirms a `set` trigger on exactly that template |

## Left out

- File and directory input: `fs::read_dir`, the directory-entry checks, `AppMetaYaml::read` and the YAML parsing (src/worker/app_meta.rs:158-166, :387-407). They are replaced by a sequence of `AppEntry` values. The I/O errors they can return, and their panics, are not modelled: a file that cannot be opened or parsed (:160-165), a directory name that is not UTF-8 (`to_str().unwrap()`, :397) and an entry that is not a directory (`assert!`, :398).
- `async`, `await` and `tokio::task::spawn_blocking` in `load_all_app_meta` do not affect what is loaded.
- `tracing::info!` logging has no observable effect.
- `ErrCvt` and `WSResult` error conversion belong to I/O, which is outside this model.
- `KvOps` is defined in `general::kv_interface`, which is not part of this model. The three operations are modelled as `KvOp`.
- Regular-expression engine details: compiling the template with `Regex::new`, the leftmost-first `find`, and the length comparison. The model states the intended language: literal characters plus one non-empty `[a-zA-Z0-9]` run per `{}`, over the whole key. The code does not escape literal characters, so a template holding a regular-expression metacharacter (`.`, `*`, `(`, ...) behaves differently in the code, and a template that is not a valid expression makes `Regex::new(..).unwrap()` panic (:270). Neither case is modelled.
- `HashMap` iteration order is a parameter (`order`). The code converts the application with the declaration map's order and indexes it with the converted map's order, which may differ. The model uses one order for both. The only difference this makes is which failure is reported first when several functions are faulty.
- Registry.AppMetaManager.LoadAllAppMeta: promises nothing about the tables after a failed load. The code panics part-way, and by then some triggers have already been pushed onto the index.
- FnMetas.FnMeta.FindWillTriggerKvEvent: for `Set` it requires every `KvSet` slot to exist. The code panics only if it reaches a bad slot before a match, and loading guarantees valid slots for every loaded function.
- The indices of `kv_key` argument bindings are never checked against the permission list. The code neither validates them at load nor dereferences them in this file, and the model follows the code.
- `usize` indices are modelled as `nat`. No index here comes near the 64-bit limit.
- Commented-out code is dead and not modelled: the WASM parameter marshalling, `get_event_kv` and `matcher`.
