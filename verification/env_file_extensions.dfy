/** EnvFileExtensions.AddEnvFile: registers an .env file as a configuration
    source of a configuration builder. */
module EnvFileExtensions {
  import opened Failures
  import opened Text
  import opened Paths

  /** An entry of IConfigurationBuilder.Sources. An EnvFileSource is an
      EnvFileConfigurationSource whose file provider is rooted at root. */
  datatype ConfigurationSource =
    | OtherSource(name: string)
    | EnvFileSource(path: string, optional: bool, reloadOnChange: bool, root: string)

  datatype Builder = Builder(sources: seq<ConfigurationSource>)

  /** The source AddEnvFile registers for an existing file at path. */
  predicate IsSourceFor(source: ConfigurationSource, path: string, optional: bool) {
    && source.EnvFileSource?
    && source.optional == optional
    && !source.reloadOnChange
    && DirectoryName(path) == Some(source.root)
    && IsRooted(source.root)
    && source.path == FileName(path)
  }

  /** GetDirectoryName(path) is not null and is an absolute path, as the
      PhysicalFileProvider constructor demands of its root. */
  predicate HasAbsoluteDirectory(path: string) {
    DirectoryName(path).Some? && IsRooted(DirectoryName(path).value)
  }

  /** AddEnvFile(builder, path, optional). files holds the existing files,
      as FileExists reads them. The PhysicalFileProvider built on the
      directory refuses a directory that is not absolute with an
      ArgumentException. */
  function AddEnvFile(files: set<string>, builder: Builder, path: string, optional: bool): (r: Result<Builder>)
    ensures IsWhiteSpaceOnly(path) ==> r == Err(ArgumentNull)
    ensures !IsWhiteSpaceOnly(path) && !FileExists(files, path) ==>
              r == if optional then Ok(builder) else Err(FileNotFound)
    ensures r.Ok? ==> builder.sources <= r.value.sources && |r.value.sources| <= |builder.sources| + 1
    ensures r.Ok? && FileExists(files, path) ==> |r.value.sources| == |builder.sources| + 1
    ensures r.Ok? && |r.value.sources| > |builder.sources| ==>
              FileExists(files, path) && IsSourceFor(r.value.sources[|builder.sources|], path, optional)
    ensures !IsWhiteSpaceOnly(path) && FileExists(files, path) ==> (r.Ok? <==> HasAbsoluteDirectory(path))
    ensures !IsWhiteSpaceOnly(path) && FileExists(files, path) && r.Err? ==> r.error == Argument
    ensures r.Err? ==> r.error in {ArgumentNull, FileNotFound, Argument}
  {
    if IsWhiteSpaceOnly(path) then Err(ArgumentNull)
    else if !FileExists(files, path) then
      if optional then Ok(builder) else Err(FileNotFound)
    else
      match DirectoryName(path)
      case None => Err(Argument)
      case Some(root) =>
        if !IsRooted(root) then Err(Argument)
        else Ok(Builder(builder.sources + [EnvFileSource(FileName(path), optional, false, root)]))
  }

  /** An existing file with an absolute path is always registered, as the
      last source, after all the sources already there. */
  lemma AddEnvFileRegistersAbsolutePath(files: set<string>, builder: Builder, path: string, optional: bool)
    requires IsRooted(path) && FileExists(files, path)
    ensures AddEnvFile(files, builder, path, optional).Ok?
    ensures var sources := AddEnvFile(files, builder, path, optional).value.sources;
            |sources| == |builder.sources| + 1 && IsSourceFor(sources[|builder.sources|], path, optional)
  {
    assert !IsWhiteSpace(path[0]);
    DirectoryNameKeepsRoot(path);
  }

  /** An existing path whose directory is relative is refused with
      ArgumentException, optional or not. */
  lemma AddEnvFileRefusesPathWithoutAbsoluteDirectory(files: set<string>, builder: Builder, path: string, optional: bool)
    requires !IsWhiteSpaceOnly(path) && FileExists(files, path) && !HasAbsoluteDirectory(path)
    ensures AddEnvFile(files, builder, path, optional) == Err(Argument)
  {
  }

  /** An existing file always has a directory: GetDirectoryName is null
      only for the empty path and for "/", which File.Exists never reports,
      so the ArgumentException for a null directory is never thrown. */
  lemma ExistingFileHasDirectory(files: set<string>, path: string)
    requires FileExists(files, path)
    ensures DirectoryName(path).Some?
  {
  }

  /** "/" is the root directory, not a file, so AddEnvFile treats it as a
      missing file, whatever the set of files holds. */
  lemma AddEnvFileTreatsRootAsMissing(files: set<string>, builder: Builder, optional: bool)
    ensures AddEnvFile(files, builder, [Separator], optional) ==
              if optional then Ok(builder) else Err(FileNotFound)
  {
    assert !IsWhiteSpaceOnly([Separator]) by { assert !IsWhiteSpace([Separator][0]); }
  }

  /** A relative path that exists is refused: its directory is relative too. */
  lemma AddEnvFileRefusesRelativePath(files: set<string>, builder: Builder, path: string, optional: bool)
    requires !IsWhiteSpaceOnly(path) && !IsRooted(path) && FileExists(files, path)
    ensures AddEnvFile(files, builder, path, optional) == Err(Argument)
  {
    assert DirectoryName(path).Some?;
  }

  /** The registered source names the file it was made for: its file
      provider's root joined with its path gives the path back, when a
      single separator precedes the file name. */
  lemma RegisteredSourceNamesTheFile(source: ConfigurationSource, path: string, optional: bool)
    requires IsSourceFor(source, path, optional) && source.path != []
    requires LastSeparator(path) <= 0 || path[LastSeparator(path) - 1] != Separator
    ensures Combine(source.root, source.path) == path
  {
    SplitRecombines(path);
  }
}
