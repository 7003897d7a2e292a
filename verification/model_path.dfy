/** The model-file path of the local configuration: a file name without its
    `.gguf` extension, a directory with a trailing `/`, and the two joined
    back with the extension. */
module ModelPath {
  import opened Common

  const Extension := ".gguf"

  /** `name`: the file name with one trailing `.gguf` removed, if present. */
  function Name(file: string): (n: string)
    ensures EndsWith(file, Extension) ==> n + Extension == file
    ensures !EndsWith(file, Extension) ==> n == file
  {
    if EndsWith(file, Extension) then file[..|file| - |Extension|] else file
  }

  /** `folder`: the directory with a trailing `/`, added only when missing. */
  function Folder(directory: string): (f: string)
    ensures EndsWith(f, "/")
    ensures |f| == |directory| || |f| == |directory| + 1
    ensures f[..|directory|] == directory
    ensures EndsWith(directory, "/") <==> f == directory
  {
    if EndsWith(directory, "/") then directory else directory + "/"
  }

  /** `path`: the model file inside the directory, with the extension. */
  function Path(model: string, directory: string): (p: string)
    ensures EndsWith(p, Extension)
    ensures |directory| <= |p| && p[..|directory|] == directory
    ensures |Folder(directory)| <= |p| && p[..|Folder(directory)|] == Folder(directory)
  {
    Folder(directory) + Name(model) + Extension
  }

  /** Removing the extension undoes adding it. */
  lemma NameRemovesExtension(file: string)
    ensures Name(file + Extension) == file
  {
    assert EndsWith(file + Extension, Extension);
    assert (file + Extension)[..|file|] == file;
  }

  /** Only one extension is removed, so `name` is not idempotent. */
  lemma NameStripsOnce()
    ensures Name("a.gguf.gguf") == "a.gguf"
    ensures Name(Name("a.gguf.gguf")) == "a"
  {
    NameRemovesExtension("a.gguf");
    NameRemovesExtension("a");
  }

  /** Normalising a directory twice is normalising it once. */
  lemma FolderIdempotent(directory: string)
    ensures Folder(Folder(directory)) == Folder(directory)
  {
  }

  /** A missing trailing `/` on the directory does not change the path. */
  lemma PathIgnoresTrailingSlash(model: string, directory: string)
    requires !EndsWith(directory, "/")
    ensures Path(model, directory) == Path(model, directory + "/")
  {
    assert EndsWith(directory + "/", "/");
  }

  /** A missing extension on the model name does not change the path. */
  lemma PathIgnoresExtension(model: string, directory: string)
    requires !EndsWith(model, Extension)
    ensures Path(model, directory) == Path(model + Extension, directory)
  {
    NameRemovesExtension(model);
  }

  /** The file part of a path is the model name with the extension, so
      `name` recovers the normalised model name from it. */
  lemma PathRecoversName(model: string, directory: string)
    ensures var p, f := Path(model, directory), Folder(directory);
      p[|f|..] == Name(model) + Extension && Name(p[|f|..]) == Name(model)
  {
    var p, f := Path(model, directory), Folder(directory);
    assert p == f + (Name(model) + Extension);
    NameRemovesExtension(Name(model));
  }
}
