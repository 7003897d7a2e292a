/** The configuration of the local toolkit: which configuration file to read,
    and the settings read from it, checked and normalised into a model path. */
module LocalConfigs {
  import opened Common
  import ModelPath

  /** The default configuration file. */
  const DefaultConfig := "config/config.json"

  const ProvidedNotFound := "Error: Config file not found in provided path."
  const DefaultNotFound := "Error: Missing config file."
  const ModelMissing := "Error: Missing model file name parameter."
  const DirectoryMissing := "Error: Missing model file directory parameter."

  /** The entries of a parsed configuration file; `None` for an absent key. */
  datatype ConfigFile = ConfigFile(
    model: Option<string>,
    directory: Option<string>,
    strategy: Option<string>,
    gpu: Option<bool>,
    format: Option<string>,
    ram: Option<bool>,
    path: Option<string>)

  /** What `load` raises: `FileNotFoundError` or `IndexError`, with its text. */
  datatype LoadError = FileNotFound(message: string) | MissingParameter(message: string)

  /** The warnings `load` issues for settings that are missing but not fatal. */
  datatype Warning = MissingStrategy | MissingFormat

  class Config {
    var config: string
    var model: Option<string>
    var directory: Option<string>
    var strategy: Option<string>
    var gpu: Option<bool>
    var format: Option<string>
    var ram: Option<bool>
    var path: Option<string>

    /** `Config()`: the default configuration file; nothing read yet. */
    constructor ()
      ensures config == DefaultConfig
      ensures model.None? && directory.None? && strategy.None? && gpu.None?
      ensures format.None? && ram.None? && path.None?
    {
      config := DefaultConfig;
      model, directory, strategy, gpu := None, None, None, None;
      format, ram, path := None, None, None;
    }

    /** `load`: use `path` as the configuration file when it is given, take
        every setting from the file's content (`None` when the file cannot be
        read), require a model and a directory, warn about a missing strategy
        or format, and normalise the model name and directory into the model
        path. */
    method Load(path: Option<string>, content: Option<ConfigFile>) returns (warnings: seq<Warning>, out: Outcome<LoadError>)
      modifies this
      ensures config == (if Present(path) then path.value else old(config))
      ensures content.None? ==>
        && out == Fail(FileNotFound(if Present(path) then ProvidedNotFound else DefaultNotFound))
        && model == old(model) && directory == old(directory) && strategy == old(strategy) && gpu == old(gpu)
        && format == old(format) && ram == old(ram) && this.path == old(this.path)
      ensures content.Some? ==>
        var f := content.value;
        && strategy == f.strategy && gpu == f.gpu && format == f.format && ram == f.ram
        && (!Present(f.model) ==>
              out == Fail(MissingParameter(ModelMissing))
              && model == f.model && directory == f.directory && this.path == f.path)
        && (Present(f.model) && !Present(f.directory) ==>
              out == Fail(MissingParameter(DirectoryMissing))
              && model == f.model && directory == f.directory && this.path == f.path)
        && (Present(f.model) && Present(f.directory) ==>
              && out == Pass
              && model == Some(ModelPath.Name(f.model.value))
              && directory == Some(ModelPath.Folder(f.directory.value))
              && this.path == Some(ModelPath.Path(f.model.value, f.directory.value)))
      ensures out.Pass? ==>
        && content.Some?
        && warnings == (if Present(content.value.strategy) then [] else [MissingStrategy])
                       + (if Present(content.value.format) then [] else [MissingFormat])
      ensures out.Fail? ==> warnings == []
    {
      warnings := [];
      if Present(path) {
        config := path.value;
      }
      if content.None? {
        var error := if Present(path) then ProvidedNotFound else DefaultNotFound;
        return warnings, Fail(FileNotFound(error));
      }
      var f := content.value;
      model, directory, strategy, gpu := f.model, f.directory, f.strategy, f.gpu;
      format, ram, this.path := f.format, f.ram, f.path;
      if !Present(model) {
        return warnings, Fail(MissingParameter(ModelMissing));
      }
      if !Present(directory) {
        return warnings, Fail(MissingParameter(DirectoryMissing));
      }
      if !Present(strategy) {
        warnings := warnings + [MissingStrategy];
      }
      if !Present(format) {
        warnings := warnings + [MissingFormat];
      }
      model := Some(ModelPath.Name(model.value));
      directory := Some(ModelPath.Folder(directory.value));
      this.path := Some(directory.value + model.value + ModelPath.Extension);
      out := Pass;
    }
  }
}
