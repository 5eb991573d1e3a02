/**
 * How the panel and the plugin fit together: the catalog the panel shows
 * comes from the plugin's GGUF scan, and the path it persists is the one the
 * plugin then reports back on the next poll.
 */
module ModelSelection {
  import opened Wrappers
  import Paths
  import opened LocalLlm
  import LocalLlmCommands
  import opened EnhancingModel

  /** Every row of a loaded catalog names a file with extension "gguf". */
  predicate GgufCatalog(catalog: Option<seq<ModelEntry>>)
  {
    catalog.Some? ==> forall i :: 0 <= i < |catalog.value| ==> Paths.HasGgufExtension(catalog.value[i].path)
  }

  /** The catalog built from a successful scan holds only GGUF files. */
  lemma ScannedCatalogIsGguf(dir: string, entries: seq<Option<string>>)
    ensures GgufCatalog(Some(Catalog(Ok(LocalLlmCommands.GgufModelPaths(dir, entries)))))
  {
    var paths := LocalLlmCommands.GgufModelPaths(dir, entries);
    var c := Catalog(Ok(paths));
    forall i | 0 <= i < |c|
      ensures Paths.HasGgufExtension(c[i].path)
    {
      assert c[i].path == paths[i] && paths[i] in paths;
      LocalLlmCommands.GgufModelPathsMembers(dir, entries, paths[i]);
    }
  }

  /**
   * Each row of a scanned catalog shows the file name of a readable entry of
   * the directory, and its path is that name inside the directory.
   */
  lemma ScannedCatalogShowsFileNames(dir: string, entries: seq<Option<string>>, k: nat)
    requires forall i :: 0 <= i < |entries| && entries[i].Some? ==> '/' !in entries[i].value
    requires k < |LocalLlmCommands.GgufModelPaths(dir, entries)|
    ensures var row := Catalog(Ok(LocalLlmCommands.GgufModelPaths(dir, entries)))[k];
      exists name :: Some(name) in entries && row.path == Paths.Join(dir, name) && row.name == name
  {
    var paths := LocalLlmCommands.GgufModelPaths(dir, entries);
    var row := Catalog(Ok(paths))[k];
    assert row.path == paths[k] && row.name == Paths.Basename(paths[k]);
    assert paths[k] in paths;
    LocalLlmCommands.GgufModelPathsMembers(dir, entries, paths[k]);
    var name :| Some(name) in entries && paths[k] == Paths.Join(dir, name);
    Paths.BasenameOfJoin(dir, name);
  }

  /**
   * With a GGUF catalog no row is named "default", so choosing "default"
   * always asks the plugin to clear the custom path.
   */
  lemma DefaultChoiceClearsCustomPath(catalog: Option<seq<ModelEntry>>)
    requires GgufCatalog(catalog)
    ensures ModelChangeMutation(DefaultModel, catalog) == MutateModelPath(None)
  {
    if catalog.Some? {
      forall i | 0 <= i < |catalog.value|
        ensures Paths.Basename(catalog.value[i].path) != DefaultModel
      {
        Paths.GgufNameIsNotDefault(catalog.value[i].path);
      }
    }
  }

  /**
   * The user picks "default": the plugin clears its custom path, and the next
   * poll reports the built-in path. If the panel's last reading was another
   * path, the effect runs again and the panel selects "llm.gguf", not
   * "default", and remembers the built-in path as its custom path; the
   * custom-model line is then shown exactly when the catalog has no
   * "llm.gguf". If the last reading already was the built-in path, the
   * effect does not run and "default" stays selected, with no custom-model line.
   */
  method DefaultChoiceThenPoll(state: State, panel: Panel, catalog: Option<seq<ModelEntry>>, appDataDir: string)
    requires state.modelPath == DefaultModelPath(appDataDir)
    requires panel.Valid() && GgufCatalog(catalog)
    modifies state, panel
    ensures panel.Valid()
    ensures panel.effects == old(panel.effects) + SetModelPathEffects(None, Ok(()))
    ensures state.customModelPath == None && state.server == None
    ensures panel.lastReading == Some(DefaultModelPath(appDataDir))
    ensures old(panel.lastReading) != Some(DefaultModelPath(appDataDir)) ==>
      && panel.selectedModel == DefaultModelFileName && panel.selectedModel != DefaultModel
      && panel.customModelPath == Some(DefaultModelPath(appDataDir))
      && (panel.ShowsCustomModelBanner(catalog) <==> !Listed(catalog, DefaultModelFileName))
    ensures old(panel.lastReading) == Some(DefaultModelPath(appDataDir)) ==>
      && panel.selectedModel == DefaultModel
      && panel.customModelPath == old(panel.customModelPath)
      && !panel.ShowsCustomModelBanner(catalog)
  {
    var defaultPath := DefaultModelPath(appDataDir);
    DefaultChoiceClearsCustomPath(catalog);
    var request := ModelChangeMutation(DefaultModel, catalog);
    var reply := LocalLlmCommands.SetCustomModelPath(state, request.path);
    assert reply == Ok(()) && state.ActiveModelPath() == defaultPath;
    panel.HandleModelChange(DefaultModel, catalog, reply);
    assert panel.effects == old(panel.effects) + SetModelPathEffects(None, Ok(()));
    assert panel.lastReading == old(panel.lastReading);
    var reading := LocalLlmCommands.GetActiveModelPath(state);
    assert PollReading(reading) == Some(defaultPath);
    Paths.BasenameIsLastComponent(defaultPath);
    assert Truthy(Some(defaultPath));
    panel.ObserveActivePath(PollReading(reading));
    if old(panel.lastReading) != Some(defaultPath) {
      assert panel.selectedModel == DefaultModelFileName;
    } else {
      assert panel.selectedModel == DefaultModel;
    }
  }
}
