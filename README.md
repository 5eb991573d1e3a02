# Model-path selection in the local-LLM plugin and its settings panel

This project models how the desktop app chooses which local GGUF model file its
llama server loads. There are two sides:

- **The local-LLM plugin** (Rust). It keeps a `State` record with the default
  model path (`<app data dir>/llm.gguf`), an optional custom path, and handles
  for the running server and for a download. The *active* path is the custom
  path when one is set, and the default path otherwise. Its commands report
  the active path, replace the custom path (stopping a running server), scan
  the app data directory for `.gguf` files, list Ollama's models, and refuse
  to open a file dialog.
- **The "Enhancing Model" settings panel** (TypeScript/React). It keeps two
  fields, `selectedModel` (initially `"default"`) and `customModelPath`
  (initially `null`). They change on four events: a poll reading of the
  active path, a choice in the GGUF radio group, a file picked in the hidden
  input, and a choice in the Ollama radio group. A GGUF radio choice and a
  picked file may fire the `setModelPath` mutation. That mutation calls the plugin and, only on
  success, invalidates the active-model and running caches. The panel also
  derives the catalog rows, the Ollama model list and the "Custom model: …"
  line.

Modules:

- `Wrappers` (wrappers.dfy): `Option` and `Result`.
- `Paths` (paths.dfy): path text. `Basename` is the text after the last `/`.
  `Join` is `PathBuf::join`. `Extension` is `Path::extension`.
- `LocalLlm` (local_llm.dfy): the `State` class, its constructor, the active
  path, and the default model path.
- `LocalLlmCommands` (local_llm_commands.dfy): the plugin commands, as
  methods and functions over the state.
- `EnhancingModel` (enhancing_model.dfy): the `Panel` class and its pure
  derivations.
- `ModelSelection` (model_selection.dfy): how the two sides fit together.
  The catalog comes from the plugin's scan. Choosing "default" clears the
  custom path. The next poll then selects `"llm.gguf"`, not `"default"`,
  unless the panel's previous reading already was the built-in path.

The panel's calls to the plugin are recorded in a trace (`Panel.effects`) as
`Effect` values; they are not performed. Each mutation is one atomic step. It
takes the plugin's reply as a parameter. Polls are explicit calls of
`Panel.ObserveActivePath`. The panel remembers the last reading
(`Panel.lastReading`), because the effect that copies the reading into the
panel depends on `activeModelPath.data` and so runs only when the reading
changes. The directory listing, the Ollama reply and the query results are
parameters.

Three behaviours of the code worth knowing:

- Choosing "default" clears the custom path only when no catalog row is named
  "default". The code checks the catalog first.
  `ModelSelection.DefaultChoiceClearsCustomPath` shows that a GGUF catalog
  never has such a row.
- A `null` or empty active-path reading leaves the panel unchanged. It does
  not reset the selection to "default".
- A changed poll reading stores the active path as `customModelPath` even
  when that path is a catalog row or the built-in default.

## Model

| member | source | states |
|---|---|---|
| `Paths.Basename` | apps/desktop/src/components/settings/components/ai/enhancing-model.tsx:48 | the basename is no longer than the path, and it is empty iff the path is empty or ends in '/' |
| `Paths.BasenameIsLastComponent` | apps/desktop/src/components/settings/components/ai/enhancing-model.tsx:48 | the basename of a path is a '/'-free suffix that is either the whole path or follows a '/' |
| `Paths.BasenameUnique` | apps/desktop/src/components/settings/components/ai/enhancing-model.tsx:60 | a path has only one such last component, so the basename is determined by it |
| `Paths.Join` | plugins/local-llm/src/lib.rs:68 | the result starts with `dir`, and a '/'-free name becomes the last component of the result |
| `Paths.BasenameOfJoin` | plugins/local-llm/src/lib.rs:68 | the basename of `dir` joined with a plain file name is that file name, for any `dir` |
| `Paths.LastDot` | plugins/local-llm/src/commands.rs:77 | the index of the last '.', or none exactly when the name has no '.' |
| `Paths.Extension` | plugins/local-llm/src/commands.rs:77 | an extension exists iff the name is not ".." and has a '.' after its first character; it is the '.'-free text after the final '.' |
| `Paths.HasGgufExtension` | plugins/local-llm/src/commands.rs:77 | a path passes the scan's filter iff its file name ends in ".gguf" with at least one character before the dot |
| `Paths.GgufExtensionIsSuffix` | plugins/local-llm/src/commands.rs:77 | a name's extension is "gguf" iff the name is longer than five characters and ends in ".gguf" |
| `Paths.LlmGgufExtension` | plugins/local-llm/src/lib.rs:68 | the extension of "llm.gguf" is "gguf" |
| `Paths.GgufNameIsNotDefault` | plugins/local-llm/src/commands.rs:77 | a file whose extension is "gguf" is never named "default" |
| `LocalLlm.DefaultModelPath` | plugins/local-llm/src/lib.rs:68 | the default model path's file name is "llm.gguf" |
| `LocalLlm.DefaultModelPathIsGguf` | plugins/local-llm/src/lib.rs:68 | the default model path has extension "gguf", so the GGUF scan would list it |
| `LocalLlm.State.constructor` | plugins/local-llm/src/lib.rs:28-36 | a new state holds the given model path with every other field None, and its active path is the given path |
| `LocalLlm.State.ActiveModelPath` | plugins/local-llm/src/lib.rs:38-40 | the active path is the custom path when set, else the default path; as a function it changes nothing |
| `LocalLlmCommands.GetActiveModelPath` | plugins/local-llm/src/commands.rs:86-94 | the command always succeeds with the state's active path and modifies nothing |
| `LocalLlmCommands.SetCustomModelPath` | plugins/local-llm/src/commands.rs:96-115 | the custom path becomes exactly the argument; the server handle is None afterwards; the default path, API base and download are unchanged; the active path becomes the argument or the default path; the result is Ok |
| `LocalLlmCommands.SetCustomModelPathIdempotent` | plugins/local-llm/src/commands.rs:104-112 | two calls with one argument leave the state a single call leaves |
| `LocalLlmCommands.ListOllamaModels` | plugins/local-llm/src/commands.rs:50-62 | an Ollama error propagates; otherwise the model names come one for one, in order and with the same length |
| `LocalLlmCommands.SelectModelFile` | plugins/local-llm/src/commands.rs:117-128 | the command always fails with "FILE_SELECTION_REQUIRED" |
| `LocalLlmCommands.GgufModelPaths` | plugins/local-llm/src/commands.rs:72-83 | the scan keeps at most one path per entry; that every kept path has extension "gguf" is proved in `GgufModelPathsMembers` |
| `LocalLlmCommands.ScanEntry` | plugins/local-llm/src/commands.rs:75-80 | one entry adds at most one path; which one, and that it is a GGUF one, is proved for the whole scan in `GgufModelPathsMembers` |
| `LocalLlmCommands.GgufModelPathsMembers` | plugins/local-llm/src/commands.rs:72-83 | a path is reported iff it is a readable entry's path and has extension "gguf" |
| `LocalLlmCommands.GgufModelPathsStep` | plugins/local-llm/src/commands.rs:75-80 | scanning one more entry appends only that entry's contribution |
| `LocalLlmCommands.GgufModelPathsAppend` | plugins/local-llm/src/commands.rs:75-80 | the scan keeps listing order: scanning a concatenation gives the concatenation of the scans |
| `LocalLlmCommands.ListAvailableGgufModels` | plugins/local-llm/src/commands.rs:64-84 | an unresolvable directory is an error; an unreadable one gives Ok([]); otherwise the result is the GGUF scan of the listing |
| `EnhancingModel.PollReading` | apps/desktop/src/components/settings/components/ai/enhancing-model.tsx:29-36 | a failed active-path call reads as null, and a successful one as its path |
| `EnhancingModel.Catalog` | apps/desktop/src/components/settings/components/ai/enhancing-model.tsx:43-54 | each reported path becomes a row with its basename as name, in order and with the same length; an error gives no rows |
| `EnhancingModel.FirstMatch` | apps/desktop/src/components/settings/components/ai/enhancing-model.tsx:138 | none iff no row's basename is the name; otherwise the first such row, so name collisions resolve to catalog order |
| `EnhancingModel.Find` | apps/desktop/src/components/settings/components/ai/enhancing-model.tsx:138 | a row is found iff some catalog row's basename is the name, and the row found is the first catalog row with that basename |
| `EnhancingModel.ModelChangeMutation` | apps/desktop/src/components/settings/components/ai/enhancing-model.tsx:134-145 | a listed name persists the first matching row's path; otherwise "default" persists null; any other name persists nothing (each case holds iff its condition holds) |
| `EnhancingModel.SetModelPathEffects` | apps/desktop/src/components/settings/components/ai/enhancing-model.tsx:117-132 | the backend call comes first; both cache invalidations follow iff the call succeeded, so the trace has three entries on success and one on failure |
| `EnhancingModel.ToggleEffects` | apps/desktop/src/components/settings/components/ai/enhancing-model.tsx:66-75 | startServer is called iff the server is not running; the running cache is invalidated iff the mutation succeeds; nothing else is issued, and the call comes before the invalidation |
| `EnhancingModel.OllamaFallback` | apps/desktop/src/components/settings/components/ai/enhancing-model.tsx:79-87 | the list is never empty: the reply when it has models, otherwise ["default"] for an empty reply or an error |
| `EnhancingModel.OllamaQuery` | apps/desktop/src/components/settings/components/ai/enhancing-model.tsx:77-89 | the query runs only while the server runs; when it runs its data is the reply when that has models, and ["default"] after an error or an empty reply |
| `EnhancingModel.AvailableModels` | apps/desktop/src/components/settings/components/ai/enhancing-model.tsx:167 | loaded data are shown as they are, an absent list as ["default"]; the rows are empty only for a loaded empty list |
| `EnhancingModel.IsOllamaConnected` | apps/desktop/src/components/settings/components/ai/enhancing-model.tsx:168 | when connected, the rows are exactly the loaded non-empty list; when not, they are ["default"] or empty |
| `EnhancingModel.OllamaRowsAfterFetch` | apps/desktop/src/components/settings/components/ai/enhancing-model.tsx:167-168 | the Ollama rows are never empty; once the query has run Ollama counts as connected, even when it is unreachable, and then the rows are exactly ["default"] |
| `EnhancingModel.ShowCustomModelBanner` | apps/desktop/src/components/settings/components/ai/enhancing-model.tsx:273 | the line is shown iff the custom path is truthy, the selection is not "default", and no catalog row's basename equals the selection |
| `EnhancingModel.CustomModelBannerExample` | apps/desktop/src/components/settings/components/ai/enhancing-model.tsx:273 | with catalog ["/models/a.gguf"], reading that path hides the line and reading "/custom/b.gguf" shows it |
| `EnhancingModel.Panel.ShowsCustomModelBanner` | apps/desktop/src/components/settings/components/ai/enhancing-model.tsx:273 | for a panel that only stores truthy paths, the line is shown iff a custom path is stored, the selection is not "default", and no catalog row's basename equals the selection |
| `EnhancingModel.Panel.constructor` | apps/desktop/src/components/settings/components/ai/enhancing-model.tsx:22-23 | the panel starts with "default" selected, no custom path, an empty trace and no reading seen |
| `EnhancingModel.Panel.ObserveActivePath` | apps/desktop/src/components/settings/components/ai/enhancing-model.tsx:58-64 | a truthy reading that differs from the last one sets the selection to its basename and the custom path to it, overwriting earlier choices; a repeated reading, null or "" changes neither field; the reading is remembered; no effect is issued |
| `EnhancingModel.Panel.SetModelPath` | apps/desktop/src/components/settings/components/ai/enhancing-model.tsx:117-132 | the call and, only on success, the two invalidations are traced; a failure is rethrown; the selection is not rolled back |
| `EnhancingModel.Panel.HandleModelChange` | apps/desktop/src/components/settings/components/ai/enhancing-model.tsx:134-145 | the selection always becomes the chosen name, the custom path is unchanged, and the trace gains the effects of the chosen mutation |
| `EnhancingModel.Panel.HandleFileSelection` | apps/desktop/src/components/settings/components/ai/enhancing-model.tsx:147-165 | an empty pick changes nothing; a truthy path sets both fields and persists the path, whatever the reply; a falsy path changes no field; a non-empty pick always resets the input |
| `EnhancingModel.Panel.SelectOllamaModel` | apps/desktop/src/components/settings/components/ai/enhancing-model.tsx:324-327 | an Ollama choice sets only the selection and issues nothing |
| `EnhancingModel.Panel.ToggleLocalLlm` | apps/desktop/src/components/settings/components/ai/enhancing-model.tsx:66-75 | startServer is traced only when not running; the mutation fails only when that call fails, and only success invalidates the running cache |
| `ModelSelection.ScannedCatalogIsGguf` | apps/desktop/src/components/settings/components/ai/enhancing-model.tsx:45-49 | every row of the catalog built from the plugin's scan names a GGUF file |
| `ModelSelection.ScannedCatalogShowsFileNames` | apps/desktop/src/components/settings/components/ai/enhancing-model.tsx:45-49 | each catalog row shows the file name of a readable directory entry, and its path is that entry inside the directory |
| `ModelSelection.DefaultChoiceClearsCustomPath` | apps/desktop/src/components/settings/components/ai/enhancing-model.tsx:138-144 | with a GGUF catalog, choosing "default" always persists null |
| `ModelSelection.DefaultChoiceThenPoll` | apps/desktop/src/components/settings/components/ai/enhancing-model.tsx:58-62 | after "default" is chosen and the plugin clears the custom path, the next poll reads the built-in path; if the previous reading was different, the panel selects "llm.gguf" (not "default") and stores the built-in path, and the custom-model line shows iff the catalog has no "llm.gguf"; if it was the same, "default" stays selected and no line is shown |

## Left out

- Tauri plugin wiring (`make_specta_builder`, `init`, `app.manage`) and app data directory resolution: framework glue. The app data directory is a parameter.
- `is_server_running`, `is_model_downloaded`, `is_model_downloading`, `download_model`, `start_server`, `stop_server`: they delegate to the `ext`, `manager` and `server` modules, which are not part of this model. `ServerHandle::shutdown` is not modelled either; only the cleared handle is.
- The ignored tests in lib.rs: they start a real server and make HTTP calls.
- The `tokio::sync::Mutex` and the await points: each command is one atomic step. So are the panel's mutations. Interleavings of polls with in-flight mutations, stale replies and `isPending` are not modelled. Because `mutate` runs asynchronously, the source resets the file input before `setCustomModelPath` is called; the trace records the reset after the mutation's effects.
- The Ollama client call, `std::fs::read_dir` and the desktop file picker: I/O. Their results are parameters.
- React rendering, the react-query cache, its loading state and the 5000 ms refetch interval. Invalidations are trace entries, and polls are explicit `ObserveActivePath` calls.
- `connectToOllama` (a one-second sleep) and `selectCustomModel` (it clicks the hidden input): no logic of their own.
- `Paths.Basename`: it does not strip trailing separators as Node's `path.basename` does.
- `Paths.Extension`: Rust's path-component normalisation (a trailing '/', "." components) is not modelled. Names are compared as characters, not OS bytes.
- `EnhancingModel.Panel.HandleFileSelection`: assumes the hidden input is mounted when it is reset.
- `console.error` logging of failed queries and mutations (enhancing-model.tsx:33, 51, 84, 111, 128): it has no effect on state.
- `EnhancingModel.OllamaQuery`: data kept after the query is disabled is the `cached` parameter. How react-query retains it is not modelled.
- The calendar integration panel, the integrations SQL, the wallet client and the database seed: they are outside model-path selection.
