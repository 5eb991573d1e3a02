/**
 * The local-LLM plugin's state record (plugins/local-llm/src/lib.rs):
 * the default model path fixed at setup, an optional user-chosen path,
 * and handles of the running server and of a download in progress.
 */
module LocalLlm {
  import opened Wrappers
  import Paths

  /** A running llama server; its behaviour lives outside this model. */
  datatype ServerHandle = ServerHandle(id: nat)

  /** A background model download; only its presence matters here. */
  datatype DownloadTask = DownloadTask(id: nat)

  /** The file name of the built-in model inside the app data directory. */
  const DefaultModelFileName: string := "llm.gguf"

  /** The path plugin setup hands to `State::new`: app_data_dir joined with "llm.gguf". */
  function DefaultModelPath(appDataDir: string): (p: string)
    ensures Paths.Basename(p) == DefaultModelFileName
  {
    Paths.BasenameOfJoin(appDataDir, DefaultModelFileName);
    Paths.Join(appDataDir, DefaultModelFileName)
  }

  /** The default model itself passes the plugin's GGUF filter. */
  lemma DefaultModelPathIsGguf(appDataDir: string)
    ensures Paths.HasGgufExtension(DefaultModelPath(appDataDir))
  {
    Paths.LlmGgufExtension();
  }

  class State {
    var apiBase: Option<string>
    var server: Option<ServerHandle>
    var modelPath: string
    var customModelPath: Option<string>
    var downloadTask: Option<DownloadTask>

    /** A fresh state knows only its default path; the active path is that path. */
    constructor (modelPath: string)
      ensures this.modelPath == modelPath
      ensures apiBase == None && server == None
      ensures customModelPath == None && downloadTask == None
      ensures ActiveModelPath() == modelPath
    {
      this.apiBase := None;
      this.server := None;
      this.modelPath := modelPath;
      this.customModelPath := None;
      this.downloadTask := None;
    }

    /** The path the server loads: the custom path when one is set, else the default. */
    function ActiveModelPath(): (p: string)
      reads this
      ensures customModelPath.Some? ==> p == customModelPath.value
      ensures customModelPath.None? ==> p == modelPath
    {
      match customModelPath
      case Some(custom) => custom
      case None => modelPath
    }
  }
}
