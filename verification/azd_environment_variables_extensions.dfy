/** AzdEnvironmentVariablesExtensions: the three AddAzdEnvironmentVariables
    overloads that put the default azd environment's .env file into a
    configuration builder. */
module AzdEnvironmentVariablesExtensions {
  import opened Failures
  import opened Text
  import opened Paths
  import opened AzdEnvironmentFileLocator
  import opened EnvFileExtensions

  /** AddAzdEnvironmentVariables(builder, path, optional): a blank path is
      refused, or skipped when optional; any other path goes to AddEnvFile. */
  function AddAzdEnvironmentVariablesAt(files: set<string>, builder: Builder, path: string, optional: bool)
    : (r: Result<Builder>)
    ensures IsWhiteSpaceOnly(path) ==> r == if optional then Ok(builder) else Err(Argument)
    ensures !IsWhiteSpaceOnly(path) ==> r == AddEnvFile(files, builder, path, optional)
    ensures r.Err? ==> r.error != ArgumentNull
  {
    if IsWhiteSpaceOnly(path) then
      if optional then Ok(builder) else Err(Argument)
    else
      AddEnvFile(files, builder, path, optional)
  }

  /** AddAzdEnvironmentVariables(builder, optional): locate the file, then
      add it. A located file can only be refused when its directory is not
      absolute, which LocatedFileIsAdded rules out for real directory names. */
  function AddAzdEnvironmentVariablesWith(fs: FileSystem, builder: Builder, optional: bool): (r: Result<Builder>)
    ensures Locate(fs).Err? ==> r == if optional then Ok(builder) else Err(Locate(fs).error)
    ensures Locate(fs).Ok? && r.Ok? ==>
              && |r.value.sources| == |builder.sources| + 1
              && r.value.sources[..|builder.sources|] == builder.sources
              && IsSourceFor(r.value.sources[|builder.sources|], Locate(fs).value, optional)
              && r.value.sources[|builder.sources|].path == ".env"
    ensures Locate(fs).Ok? && r.Err? ==> r.error == Argument && !HasAbsoluteDirectory(Locate(fs).value)
  {
    var path :- LocateEnvFileOfDefaultAzdEnvironment(fs, optional);
    AddAzdEnvironmentVariablesAt(fs.files, builder, path, optional)
  }

  /** With absolute ancestor names, as DirectoryInfo.FullName gives, a
      located file is always added. */
  lemma LocatedFileIsAdded(fs: FileSystem, builder: Builder, optional: bool)
    requires IsAbsoluteChain(fs.chain) && Locate(fs).Ok?
    ensures AddAzdEnvironmentVariablesWith(fs, builder, optional).Ok?
  {
    LocatedFileIsRooted(fs);
    AddEnvFileRegistersAbsolutePath(fs.files, builder, Locate(fs).value, optional);
  }

  /** End to end: when the nearest .azure directory, chain[i]'s, names a
      default environment whose .env file exists, that file is added as
      the last source, whatever the flag. */
  lemma AzdEnvFileIsAdded(fs: FileSystem, builder: Builder, optional: bool, i: nat)
    requires IsAbsoluteChain(fs.chain)
    requires i < |fs.chain| && AzureDirectoryOf(fs.chain[i]) in fs.directories
    requires forall j :: 0 <= j < i ==> AzureDirectoryOf(fs.chain[j]) !in fs.directories
    requires var config := ConfigFileOf(AzureDirectoryOf(fs.chain[i]));
             FileExists(fs.files, config) && NamesDefaultEnvironment(ReadConfig(fs, config))
    requires var config := ConfigFileOf(AzureDirectoryOf(fs.chain[i]));
             FileExists(fs.files, EnvFileOf(AzureDirectoryOf(fs.chain[i]), ReadConfig(fs, config).defaultEnvironment.value.text))
    ensures AddAzdEnvironmentVariablesWith(fs, builder, optional).Ok?
    ensures var r := AddAzdEnvironmentVariablesWith(fs, builder, optional);
            var config := ConfigFileOf(AzureDirectoryOf(fs.chain[i]));
            var envFile := EnvFileOf(AzureDirectoryOf(fs.chain[i]), ReadConfig(fs, config).defaultEnvironment.value.text);
            r.Ok? && |r.value.sources| == |builder.sources| + 1
            && IsSourceFor(r.value.sources[|builder.sources|], envFile, optional)
  {
    LocateFindsEnvFile(fs, i);
    LocatedFileIsAdded(fs, builder, optional);
  }

  /** AddAzdEnvironmentVariables(builder): the same with optional false. */
  function AddAzdEnvironmentVariables(fs: FileSystem, builder: Builder): (r: Result<Builder>)
    ensures r == AddAzdEnvironmentVariablesWith(fs, builder, false)
    ensures Locate(fs).Err? ==> r == Err(Locate(fs).error)
    ensures Locate(fs).Ok? && r.Err? ==> r.error == Argument && !HasAbsoluteDirectory(Locate(fs).value)
    ensures r.Ok? ==> && Locate(fs).Ok?
                      && |r.value.sources| == |builder.sources| + 1
                      && r.value.sources[..|builder.sources|] == builder.sources
                      && IsSourceFor(r.value.sources[|builder.sources|], Locate(fs).value, false)
  {
    AddAzdEnvironmentVariablesWith(fs, builder, false)
  }

  /** With the optional flag set and absolute ancestor names, nothing the
      locator meets makes the call fail. */
  lemma OptionalNeverFails(fs: FileSystem, builder: Builder)
    requires IsAbsoluteChain(fs.chain)
    ensures AddAzdEnvironmentVariablesWith(fs, builder, true).Ok?
  {
    if Locate(fs).Ok? {
      LocatedFileIsAdded(fs, builder, true);
    }
  }

  /** The source added for a plain environment name (no separator) reads
      exactly the located file: its provider is rooted at the environment's
      directory. */
  lemma AddedSourceReadsLocatedFile(fs: FileSystem, builder: Builder, optional: bool)
    requires IsAbsoluteChain(fs.chain) && Locate(fs).Ok?
    requires Separator !in GetDefaultEnvironmentName(fs, GetAzureDirectory(fs.chain, fs.directories).value).value
    ensures AddAzdEnvironmentVariablesWith(fs, builder, optional).Ok?
    ensures var r := AddAzdEnvironmentVariablesWith(fs, builder, optional);
            r.Ok? &&
            var source := r.value.sources[|builder.sources|];
            && source.root == Combine(GetAzureDirectory(fs.chain, fs.directories).value,
                                      GetDefaultEnvironmentName(fs, GetAzureDirectory(fs.chain, fs.directories).value).value)
            && Combine(source.root, source.path) == Locate(fs).value
  {
    var azureDirectory := GetAzureDirectory(fs.chain, fs.directories).value;
    var name := GetDefaultEnvironmentName(fs, azureDirectory).value;
    var directory := Combine(azureDirectory, name);
    assert name != [];
    assert directory[|directory| - 1] == name[|name| - 1];
    DirectoryNameOfCombine(directory, ".env");
    LocatedFileIsAdded(fs, builder, optional);
  }
}
