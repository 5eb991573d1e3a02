/**
 * The plugin commands the settings panel invokes
 * (plugins/local-llm/src/commands.rs). Each command takes the shared
 * state, as the source locks it, and runs as one atomic step; the
 * directory listing and the Ollama reply are inputs.
 */
module LocalLlmCommands {
  import opened Wrappers
  import Paths
  import opened LocalLlm

  /** The error `select_model_file` always reports, so the panel opens its own picker. */
  const FileSelectionRequired: string := "FILE_SELECTION_REQUIRED"

  /** One entry of Ollama's `list_local_models` reply. */
  datatype OllamaLocalModel = OllamaLocalModel(name: string, modifiedAt: string, size: nat)

  /** `get_active_model_path`: never fails, reports the state's active path and changes nothing. */
  method GetActiveModelPath(state: State) returns (r: Result<string>)
    ensures r == Ok(state.ActiveModelPath())
  {
    r := Ok(state.ActiveModelPath());
  }

  /**
   * `set_custom_model_path`: store the new custom path (None reverts to the
   * default) and drop a running server so it restarts on the new model.
   */
  method SetCustomModelPath(state: State, path: Option<string>) returns (r: Result<()>)
    modifies state
    ensures state.customModelPath == path
    ensures state.server == None
    ensures state.modelPath == old(state.modelPath)
    ensures state.apiBase == old(state.apiBase)
    ensures state.downloadTask == old(state.downloadTask)
    ensures state.ActiveModelPath() == if path.Some? then path.value else state.modelPath
    ensures r == Ok(())
  {
    state.customModelPath := path;
    if state.server.Some? {
      // the shutdown itself is outside the model; only the cleared handle is kept
      state.server := None;
    }
    r := Ok(());
  }

  /**
   * Two calls with the same argument leave the state a single call leaves:
   * the second call finds nothing left to change.
   */
  method SetCustomModelPathIdempotent(state: State, path: Option<string>)
    modifies state
    ensures state.customModelPath == path && state.server == None
    ensures state.modelPath == old(state.modelPath)
    ensures state.apiBase == old(state.apiBase)
    ensures state.downloadTask == old(state.downloadTask)
  {
    var _ := SetCustomModelPath(state, path);
    ghost var once := (state.apiBase, state.server, state.modelPath, state.customModelPath, state.downloadTask);
    var _ := SetCustomModelPath(state, path);
    assert (state.apiBase, state.server, state.modelPath, state.customModelPath, state.downloadTask) == once;
  }

  /** `list_ollama_models`: the reply's model names, one for one; an Ollama error propagates. */
  function ListOllamaModels(reply: Result<seq<OllamaLocalModel>>): (r: Result<seq<string>>)
    ensures reply.Err? ==> r == Err(reply.error)
    ensures reply.Ok? ==> r.Ok? && |r.value| == |reply.value|
    ensures reply.Ok? ==> forall i :: 0 <= i < |reply.value| ==> r.value[i] == reply.value[i].name
  {
    match reply
    case Err(e) => Err(e)
    case Ok(models) => Ok(seq(|models|, i requires 0 <= i < |models| => models[i].name))
  }

  /** `select_model_file`: always the sentinel error. */
  function SelectModelFile(): (r: Result<Option<string>>)
    ensures r.Err? && r.error == FileSelectionRequired
  {
    Err(FileSelectionRequired)
  }

  /**
   * The paths the GGUF scan keeps from a directory listing, in listing order.
   * Each entry is a file name, or None for an entry `read_dir` failed to read;
   * an entry's path is the directory joined with its name.
   */
  function GgufModelPaths(dir: string, entries: seq<Option<string>>): (r: seq<string>)
    ensures |r| <= |entries|
  {
    if entries == [] then []
    else GgufModelPaths(dir, entries[..|entries| - 1]) + ScanEntry(dir, entries[|entries| - 1])
  }

  /** What one listing entry contributes to the scan: its path if readable and GGUF. */
  function ScanEntry(dir: string, entry: Option<string>): (r: seq<string>)
    ensures |r| <= 1
  {
    match entry
    case None => []
    case Some(name) =>
      var path := Paths.Join(dir, name);
      if Paths.HasGgufExtension(path) then [path] else []
  }

  /**
   * The scan keeps exactly the GGUF files: a path is reported iff it names a
   * readable entry of the listing and has extension "gguf".
   */
  lemma {:induction false} GgufModelPathsMembers(dir: string, entries: seq<Option<string>>, p: string)
    ensures p in GgufModelPaths(dir, entries) <==>
      Paths.HasGgufExtension(p) && exists name :: Some(name) in entries && p == Paths.Join(dir, name)
  {
    if entries != [] {
      var init := entries[..|entries| - 1];
      var last := entries[|entries| - 1];
      assert entries == init + [last];
      GgufModelPathsMembers(dir, init, p);
      if p in GgufModelPaths(dir, entries) && p !in GgufModelPaths(dir, init) {
        assert last.Some? && p == Paths.Join(dir, last.value);
        assert Some(last.value) in entries;
      }
      forall name | Some(name) in entries && p == Paths.Join(dir, name) && Paths.HasGgufExtension(p)
        ensures p in GgufModelPaths(dir, entries)
      {
        if Some(name) in init {
        } else {
          assert last == Some(name);
        }
      }
    }
  }

  /** Scanning one more entry appends that entry's contribution. */
  lemma GgufModelPathsStep(dir: string, entries: seq<Option<string>>, i: nat)
    requires i < |entries|
    ensures GgufModelPaths(dir, entries[..i + 1]) == GgufModelPaths(dir, entries[..i]) + ScanEntry(dir, entries[i])
  {
    assert entries[..i + 1][..i] == entries[..i];
  }

  /** The scan keeps listing order: scanning two listings in turn is scanning their concatenation. */
  lemma {:induction false} GgufModelPathsAppend(dir: string, a: seq<Option<string>>, b: seq<Option<string>>)
    ensures GgufModelPaths(dir, a + b) == GgufModelPaths(dir, a) + GgufModelPaths(dir, b)
  {
    if b == [] {
      assert a + b == a;
    } else {
      var b' := b[..|b| - 1];
      assert (a + b)[..|a + b| - 1] == a + b';
      assert (a + b)[|a + b| - 1] == b[|b| - 1];
      GgufModelPathsAppend(dir, a, b');
      calc {
        GgufModelPaths(dir, a + b);
        GgufModelPaths(dir, a + b') + ScanEntry(dir, b[|b| - 1]);
        GgufModelPaths(dir, a) + GgufModelPaths(dir, b') + ScanEntry(dir, b[|b| - 1]);
        GgufModelPaths(dir, a) + GgufModelPaths(dir, b);
      }
    }
  }

  /**
   * `list_available_gguf_models`: scan the app data directory for files
   * with extension "gguf". A failure to resolve the directory propagates;
   * a failure to read it yields an empty list; unreadable entries are skipped.
   */
  method ListAvailableGgufModels(appDataDir: Result<string>, readDir: Option<seq<Option<string>>>)
    returns (r: Result<seq<string>>)
    ensures appDataDir.Err? ==> r == Err(appDataDir.error)
    ensures appDataDir.Ok? && readDir.None? ==> r == Ok([])
    ensures appDataDir.Ok? && readDir.Some? ==> r == Ok(GgufModelPaths(appDataDir.value, readDir.value))
  {
    if appDataDir.Err? {
      return Err(appDataDir.error);
    }
    var dir := appDataDir.value;
    var models: seq<string> := [];
    if readDir.Some? {
      var entries := readDir.value;
      for i := 0 to |entries|
        invariant models == GgufModelPaths(dir, entries[..i])
      {
        GgufModelPathsStep(dir, entries, i);
        if entries[i].Some? {
          var path := Paths.Join(dir, entries[i].value);
          if Paths.HasGgufExtension(path) {
            models := models + [path];
          }
        }
      }
      assert entries[..|entries|] == entries;
    }
    r := Ok(models);
  }
}
