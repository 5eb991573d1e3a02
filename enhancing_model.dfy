/**
 * The "Enhancing Model" settings panel
 * (apps/desktop/src/components/settings/components/ai/enhancing-model.tsx):
 * which local model the panel shows as selected, which custom path it
 * remembers, and which backend calls and cache invalidations its events
 * issue. Queries are inputs; polls are explicit calls of ObserveActivePath.
 */
module EnhancingModel {
  import opened Wrappers
  import Paths

  /** The radio value of the built-in model; a `null` path on the wire. */
  const DefaultModel: string := "default"

  /** A row of the GGUF catalog: a reported path and the name shown for it. */
  datatype ModelEntry = ModelEntry(path: string, name: string)

  /** The react-query caches the panel invalidates. */
  datatype QueryKey = ActiveModelQuery | RunningQuery

  /** What the panel's events do outside its own two fields. */
  datatype Effect =
    | SetCustomModelPathCall(path: Option<string>)
    | StartServerCall
    | Invalidate(key: QueryKey)
    | FileInputReset

  /** The setModelPath mutation a radio choice fires, if any. */
  datatype Mutation = NoMutation | MutateModelPath(path: Option<string>)

  /** JavaScript truthiness of a `string | null`: present and non-empty. */
  predicate Truthy(s: Option<string>)
  {
    s.Some? && s.value != ""
  }

  /** The active-model query: a failed call reads as `null`. */
  function PollReading(reply: Result<string>): (r: Option<string>)
    ensures reply.Err? ==> r == None
    ensures reply.Ok? ==> r == Some(reply.value)
  {
    match reply
    case Ok(p) => Some(p)
    case Err(_) => None
  }

  /** The GGUF query: each reported path with its basename, in order; a failed call gives no rows. */
  function Catalog(reply: Result<seq<string>>): (c: seq<ModelEntry>)
    ensures reply.Err? ==> c == []
    ensures reply.Ok? ==> |c| == |reply.value|
    ensures reply.Ok? ==> forall i :: 0 <= i < |c| ==>
      c[i].path == reply.value[i] && c[i].name == Paths.Basename(reply.value[i])
  {
    match reply
    case Err(_) => []
    case Ok(paths) => seq(|paths|, i requires 0 <= i < |paths| => ModelEntry(paths[i], Paths.Basename(paths[i])))
  }

  /** Some catalog row's path has basename `name` (the catalog may not be loaded yet). */
  predicate Listed(catalog: Option<seq<ModelEntry>>, name: string)
  {
    catalog.Some? && exists i :: 0 <= i < |catalog.value| && Paths.Basename(catalog.value[i].path) == name
  }

  /** Index of the first row whose path has basename `name`. */
  function FirstMatch(entries: seq<ModelEntry>, name: string): (r: Option<nat>)
    ensures r.None? <==> forall i :: 0 <= i < |entries| ==> Paths.Basename(entries[i].path) != name
    ensures r.Some? ==> r.value < |entries| && Paths.Basename(entries[r.value].path) == name
    ensures r.Some? ==> forall j :: 0 <= j < r.value ==> Paths.Basename(entries[j].path) != name
  {
    if entries == [] then None
    else if Paths.Basename(entries[0].path) == name then Some(0)
    else
      match FirstMatch(entries[1..], name)
      case None => None
      case Some(k) => Some(k + 1)
  }

  /** `availableGgufModels.data?.find(m => path.basename(m.path) === name)`. */
  function Find(catalog: Option<seq<ModelEntry>>, name: string): (r: Option<ModelEntry>)
    ensures r.Some? <==> Listed(catalog, name)
    ensures r.Some? ==> r.value in catalog.value && Paths.Basename(r.value.path) == name
    ensures r.Some? ==>
      exists i :: 0 <= i < |catalog.value| && r.value == catalog.value[i] &&
        forall j :: 0 <= j < i ==> Paths.Basename(catalog.value[j].path) != name
  {
    match catalog
    case None => None
    case Some(entries) =>
      match FirstMatch(entries, name)
      case None => None
      case Some(k) => Some(entries[k])
  }

  /**
   * The mutation `handleModelChange(name)` fires: the path of the first catalog
   * row named `name`; failing that, `null` for "default"; otherwise none.
   */
  function ModelChangeMutation(name: string, catalog: Option<seq<ModelEntry>>): (m: Mutation)
    ensures (m.MutateModelPath? && m.path.Some?) <==> Listed(catalog, name)
    ensures m.MutateModelPath? && m.path.Some? ==>
      exists i :: 0 <= i < |catalog.value| && m.path.value == catalog.value[i].path
        && Paths.Basename(catalog.value[i].path) == name
        && forall j :: 0 <= j < i ==> Paths.Basename(catalog.value[j].path) != name
    ensures m == MutateModelPath(None) <==> !Listed(catalog, name) && name == DefaultModel
    ensures m == NoMutation <==> !Listed(catalog, name) && name != DefaultModel
  {
    match Find(catalog, name)
    case Some(entry) => MutateModelPath(Some(entry.path))
    case None => if name == DefaultModel then MutateModelPath(None) else NoMutation
  }

  /**
   * What one setModelPath mutation does: the backend call, then, only if it
   * succeeded, invalidation of the active-model and running caches.
   */
  function SetModelPathEffects(path: Option<string>, reply: Result<()>): (e: seq<Effect>)
    ensures |e| == (if reply.Ok? then 3 else 1) && e[0] == SetCustomModelPathCall(path)
    ensures Invalidate(ActiveModelQuery) in e <==> reply.Ok?
    ensures Invalidate(RunningQuery) in e <==> reply.Ok?
    ensures forall k :: 0 < k < |e| ==> e[k].Invalidate?
  {
    [SetCustomModelPathCall(path)] + if reply.Ok? then [Invalidate(ActiveModelQuery), Invalidate(RunningQuery)] else []
  }

  /** The effects of a mutation choice, given the backend's reply. */
  function MutationEffects(m: Mutation, reply: Result<()>): seq<Effect>
  {
    match m
    case NoMutation => []
    case MutateModelPath(p) => SetModelPathEffects(p, reply)
  }

  /**
   * What the start-server mutation does: call `startServer` only when the
   * server is not running, and invalidate the running cache only on success.
   */
  function ToggleEffects(isRunning: bool, reply: Result<string>): (e: seq<Effect>)
    ensures StartServerCall in e <==> !isRunning
    ensures Invalidate(RunningQuery) in e <==> isRunning || reply.Ok?
    ensures Invalidate(ActiveModelQuery) !in e
    ensures |e| == (if isRunning then 0 else 1) + (if isRunning || reply.Ok? then 1 else 0)
    ensures forall k :: 0 <= k < |e| ==> e[k] in {StartServerCall, Invalidate(RunningQuery)}
    ensures |e| == 2 ==> e[0] == StartServerCall
  {
    (if isRunning then [] else [StartServerCall])
      + (if isRunning || reply.Ok? then [Invalidate(RunningQuery)] else [])
  }

  /**
   * The Ollama query's result: the models when the reply has some, else the
   * single row "default"; it is never empty.
   */
  function OllamaFallback(reply: Result<seq<string>>): (models: seq<string>)
    ensures |models| > 0
    ensures reply.Ok? && reply.value != [] ==> models == reply.value
    ensures (reply.Err? || reply.value == []) ==> models == [DefaultModel]
  {
    match reply
    case Ok(models) => if |models| > 0 then models else [DefaultModel]
    case Err(_) => [DefaultModel]
  }

  /**
   * The Ollama query's data after a refresh: the query is enabled only
   * while the server runs; when disabled it fetches nothing and keeps what it had.
   */
  function OllamaQuery(isRunning: bool, cached: Option<seq<string>>, reply: Result<seq<string>>): (data: Option<seq<string>>)
    ensures !isRunning ==> data == cached
    ensures isRunning ==> data.Some? && |data.value| > 0
    ensures isRunning && reply.Ok? && reply.value != [] ==> data == Some(reply.value)
    ensures isRunning && (reply.Err? || reply.value == []) ==> data == Some([DefaultModel])
  {
    if isRunning then Some(OllamaFallback(reply)) else cached
  }

  /** `ollamaModels.data || ["default"]`: an absent list reads as the single row "default". */
  function AvailableModels(data: Option<seq<string>>): (models: seq<string>)
    ensures data.Some? ==> models == data.value
    ensures data.None? ==> models == [DefaultModel]
    ensures models == [] <==> data == Some([])
  {
    match data
    case None => [DefaultModel]
    case Some(models) => models
  }

  /** `ollamaModels.data && ollamaModels.data.length > 0`. */
  predicate IsOllamaConnected(data: Option<seq<string>>)
    ensures IsOllamaConnected(data) ==> data == Some(AvailableModels(data)) && |AvailableModels(data)| > 0
    ensures !IsOllamaConnected(data) ==> AvailableModels(data) == [DefaultModel] || AvailableModels(data) == []
  {
    data.Some? && |data.value| > 0
  }

  /**
   * Once the Ollama query has run, the panel lists at least one row and
   * reports Ollama as connected, whether or not Ollama answered; an unreachable
   * Ollama lists exactly "default".
   */
  lemma OllamaRowsAfterFetch(cached: Option<seq<string>>, reply: Result<seq<string>>)
    requires cached.None? || |cached.value| > 0
    ensures |AvailableModels(OllamaQuery(true, cached, reply))| > 0
    ensures IsOllamaConnected(OllamaQuery(true, cached, reply))
    ensures reply.Err? ==> AvailableModels(OllamaQuery(true, cached, reply)) == [DefaultModel]
    ensures forall running: bool :: |AvailableModels(OllamaQuery(running, cached, reply))| > 0
  {
  }

  /** The "Custom model: …" line under the picker. */
  function ShowCustomModelBanner(customModelPath: Option<string>, selectedModel: string, catalog: Option<seq<ModelEntry>>): (shown: bool)
    ensures shown <==> Truthy(customModelPath) && selectedModel != DefaultModel && !Listed(catalog, selectedModel)
  {
    Truthy(customModelPath) && selectedModel != DefaultModel && Find(catalog, selectedModel).None?
  }

  /**
   * With one catalog row "/models/a.gguf", a reading of that path hides the
   * custom-model line; a reading of "/custom/b.gguf" shows it.
   */
  lemma CustomModelBannerExample()
    ensures var catalog := Some([ModelEntry("/models/a.gguf", "a.gguf")]);
      && !ShowCustomModelBanner(Some("/models/a.gguf"), Paths.Basename("/models/a.gguf"), catalog)
      && ShowCustomModelBanner(Some("/custom/b.gguf"), Paths.Basename("/custom/b.gguf"), catalog)
  {
    var a, b := "/models/a.gguf", "/custom/b.gguf";
    var catalog := Some([ModelEntry(a, "a.gguf")]);
    assert a == "/models" + "/" + "a.gguf" && b == "/custom" + "/" + "b.gguf";
    Paths.BasenameUnique(a, "a.gguf");
    Paths.BasenameUnique(b, "b.gguf");
    assert catalog.value[0].path == a;
    assert Listed(catalog, "a.gguf");
    assert "a.gguf" != "b.gguf";
    assert !Listed(catalog, "b.gguf");
  }

  /** The panel's own state and the trace of what its events have issued. */
  class Panel {
    var selectedModel: string
    var customModelPath: Option<string>
    var effects: seq<Effect>
    /** The active-path reading the effect last ran with (its dependency list). */
    var lastReading: Option<string>

    /** The panel only ever stores a truthy custom path. */
    predicate Valid()
      reads this
    {
      customModelPath != Some("")
    }

    /**
     * The custom-model line for the panel's current fields. Since the panel
     * only stores truthy paths, the source's truthiness test on the custom
     * path is a null test.
     */
    predicate ShowsCustomModelBanner(catalog: Option<seq<ModelEntry>>)
      reads this
      requires Valid()
      ensures ShowsCustomModelBanner(catalog) <==>
        customModelPath.Some? && selectedModel != DefaultModel && !Listed(catalog, selectedModel)
    {
      ShowCustomModelBanner(customModelPath, selectedModel, catalog)
    }

    /** On mount: the built-in model is selected, no custom path is known, no reading seen. */
    constructor ()
      ensures Valid()
      ensures selectedModel == DefaultModel && customModelPath == None && effects == []
      ensures lastReading == None
    {
      selectedModel := DefaultModel;
      customModelPath := None;
      effects := [];
      lastReading := None;
    }

    /**
     * An active-path reading reaching the effect on `activeModelPath.data`.
     * The effect runs only when the reading differs from the one it last ran
     * with; then a truthy path overwrites both fields, whatever was chosen
     * before. A repeated reading, null or "" leaves both fields as they were.
     */
    method ObserveActivePath(reading: Option<string>)
      requires Valid()
      modifies this
      ensures Valid()
      ensures lastReading == reading
      ensures Truthy(reading) && reading != old(lastReading) ==>
        selectedModel == Paths.Basename(reading.value) && customModelPath == reading
      ensures !Truthy(reading) || reading == old(lastReading) ==>
        selectedModel == old(selectedModel) && customModelPath == old(customModelPath)
      ensures effects == old(effects)
    {
      if reading != lastReading && Truthy(reading) {
        selectedModel := Paths.Basename(reading.value);
        customModelPath := reading;
      }
      lastReading := reading;
    }

    /**
     * The setModelPath mutation: persist the path in the backend, then
     * invalidate on success; a failure is rethrown and nothing is rolled back.
     */
    method SetModelPath(path: Option<string>, reply: Result<()>) returns (r: Result<bool>)
      modifies this`effects
      ensures effects == old(effects) + SetModelPathEffects(path, reply)
      ensures reply.Ok? ==> r == Ok(true)
      ensures reply.Err? ==> r == Err(reply.error)
    {
      effects := effects + [SetCustomModelPathCall(path)];
      if reply.Err? {
        return Err(reply.error);
      }
      effects := effects + [Invalidate(ActiveModelQuery), Invalidate(RunningQuery)];
      r := Ok(true);
    }

    /**
     * A choice in the GGUF radio group: the choice is shown at once; a
     * catalog row of that name is preferred over the "default" reset.
     */
    method HandleModelChange(name: string, catalog: Option<seq<ModelEntry>>, reply: Result<()>)
      requires Valid()
      modifies this
      ensures Valid()
      ensures selectedModel == name && customModelPath == old(customModelPath)
      ensures lastReading == old(lastReading)
      ensures effects == old(effects) + MutationEffects(ModelChangeMutation(name, catalog), reply)
    {
      selectedModel := name;
      var entry := Find(catalog, name);
      if entry.Some? {
        var _ := SetModelPath(Some(entry.value.path), reply);
      } else if name == DefaultModel {
        var _ := SetModelPath(None, reply);
      }
    }

    /**
     * A file picked in the hidden input. Each picked file carries its path
     * when the desktop shell supplies one. An empty pick does nothing; any
     * other pick resets the input, and a truthy path is selected and persisted.
     */
    method HandleFileSelection(files: Option<seq<Option<string>>>, reply: Result<()>)
      requires Valid()
      modifies this
      ensures Valid()
      ensures lastReading == old(lastReading)
      ensures (files.None? || files.value == []) ==>
        selectedModel == old(selectedModel) && customModelPath == old(customModelPath) && effects == old(effects)
      ensures files.Some? && files.value != [] && Truthy(files.value[0]) ==>
        customModelPath == files.value[0] && selectedModel == Paths.Basename(files.value[0].value)
        && effects == old(effects) + SetModelPathEffects(files.value[0], reply) + [FileInputReset]
      ensures files.Some? && files.value != [] && !Truthy(files.value[0]) ==>
        selectedModel == old(selectedModel) && customModelPath == old(customModelPath)
        && effects == old(effects) + [FileInputReset]
    {
      if files.None? || |files.value| == 0 {
        return;
      }
      var filePath := files.value[0];
      if Truthy(filePath) {
        customModelPath := filePath;
        selectedModel := Paths.Basename(filePath.value);
        var _ := SetModelPath(filePath, reply);
      }
      effects := effects + [FileInputReset];
    }

    /** A choice in the Ollama radio group only changes the shown selection. */
    method SelectOllamaModel(name: string)
      requires Valid()
      modifies this
      ensures Valid()
      ensures selectedModel == name && customModelPath == old(customModelPath) && effects == old(effects)
      ensures lastReading == old(lastReading)
    {
      selectedModel := name;
    }

    /**
     * The start-server mutation. The call is skipped when the server already
     * runs; the mutation fails only when the call fails.
     */
    method ToggleLocalLlm(isRunning: bool, reply: Result<string>) returns (r: Result<()>)
      modifies this`effects
      ensures effects == old(effects) + ToggleEffects(isRunning, reply)
      ensures r.Ok? <==> isRunning || reply.Ok?
      ensures r.Err? ==> r.error == reply.error
    {
      if !isRunning {
        effects := effects + [StartServerCall];
        if reply.Err? {
          return Err(reply.error);
        }
      }
      effects := effects + [Invalidate(RunningQuery)];
      r := Ok(());
    }
  }
}
