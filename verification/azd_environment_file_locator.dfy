/** AzdEnvironmentFileLocator: finds the .env file of the default azd
    environment by walking up from the application's base directory. */
module AzdEnvironmentFileLocator {
  import opened Failures
  import opened Text
  import opened Paths

  /** The value of a JSON property, as far as JsonElement.GetString cares. */
  datatype JsonValue = JsonString(text: string) | JsonNull | JsonOther

  /** What JsonDocument.Parse makes of a config.json file. */
  datatype ConfigDocument =
    | Malformed                                     // not JSON: JsonException
    | NonObjectRoot                                 // TryGetProperty throws InvalidOperationException
    | ObjectRoot(defaultEnvironment: Option<JsonValue>)

  /** The part of the machine the locator looks at. */
  datatype FileSystem = FileSystem(
    chain: seq<string>,                      // full names of the base directory and its ancestors, nearest first
    directories: set<string>,                // paths for which Directory.Exists holds
    files: set<string>,                      // existing files, as FileExists reads them
    configs: map<string, ConfigDocument>)    // parsed contents of JSON files; any other file is Malformed

  /** The document stored at path. */
  function ReadConfig(fs: FileSystem, path: string): ConfigDocument {
    if path in fs.configs then fs.configs[path] else Malformed
  }

  /** DirectoryInfo.FullName is always an absolute path. */
  predicate IsAbsoluteChain(chain: seq<string>) {
    forall i :: 0 <= i < |chain| ==> IsRooted(chain[i])
  }

  /** The .azure directory directly inside directory. */
  function AzureDirectoryOf(directory: string): string {
    Combine(directory, ".azure")
  }

  /** The config.json of an .azure directory. */
  function ConfigFileOf(azureDirectory: string): string {
    Combine(azureDirectory, "config.json")
  }

  /** The .env file of environment name inside an .azure directory. */
  function EnvFileOf(azureDirectory: string, name: string): string {
    Combine(Combine(azureDirectory, name), ".env")
  }

  /** The .azure directory of every directory of chain, in the same order. */
  function AzureCandidates(chain: seq<string>): (candidates: seq<string>)
    ensures |candidates| == |chain|
  {
    if |chain| == 0 then [] else [AzureDirectoryOf(chain[0])] + AzureCandidates(chain[1..])
  }

  /** The i-th candidate is the .azure directory of the i-th ancestor. */
  lemma {:induction false} AzureCandidateAt(chain: seq<string>, i: nat)
    requires i < |chain|
    ensures AzureCandidates(chain)[i] == AzureDirectoryOf(chain[i])
    decreases i
  {
    if i > 0 {
      AzureCandidateAt(chain[1..], i - 1);
      assert chain[1..][i - 1] == chain[i];
    }
  }

  /** The position of the first candidate in directories, or |candidates|. */
  function FirstExisting(candidates: seq<string>, directories: set<string>): (i: nat)
    ensures i <= |candidates|
    ensures forall j :: 0 <= j < i ==> candidates[j] !in directories
    ensures i < |candidates| ==> candidates[i] in directories
  {
    if |candidates| == 0 then 0
    else if candidates[0] in directories then 0
    else 1 + FirstExisting(candidates[1..], directories)
  }

  /** GetAzureDirectory: the .azure directory of the nearest ancestor (the
      start directory included) that has one. */
  function GetAzureDirectory(chain: seq<string>, directories: set<string>): (r: Result<string>)
    ensures r.Ok? ==> exists i :: 0 <= i < |chain| && r.value == AzureCandidates(chain)[i]
                                  && r.value in directories
                                  && forall j :: 0 <= j < i ==> AzureCandidates(chain)[j] !in directories
    ensures r.Err? ==> r.error == DirectoryNotFound
                       && forall i :: 0 <= i < |chain| ==> AzureCandidates(chain)[i] !in directories
  {
    var candidates := AzureCandidates(chain);
    var i := FirstExisting(candidates, directories);
    if i < |candidates| then Ok(candidates[i]) else Err(DirectoryNotFound)
  }

  /** The answer of GetAzureDirectory, spelled out in terms of the chain:
      found exactly when some ancestor has .azure, and then it is the
      nearest one. */
  lemma GetAzureDirectoryNearest(chain: seq<string>, directories: set<string>, i: nat)
    requires i < |chain| && AzureDirectoryOf(chain[i]) in directories
    requires forall j :: 0 <= j < i ==> AzureDirectoryOf(chain[j]) !in directories
    ensures GetAzureDirectory(chain, directories) == Ok(AzureDirectoryOf(chain[i]))
  {
    var candidates := AzureCandidates(chain);
    AzureCandidateAt(chain, i);
    forall j | 0 <= j < i ensures candidates[j] !in directories {
      AzureCandidateAt(chain, j);
    }
  }

  lemma GetAzureDirectoryNone(chain: seq<string>, directories: set<string>)
    requires forall j :: 0 <= j < |chain| ==> AzureDirectoryOf(chain[j]) !in directories
    ensures GetAzureDirectory(chain, directories) == Err(DirectoryNotFound)
  {
    var candidates := AzureCandidates(chain);
    forall j | 0 <= j < |chain| ensures candidates[j] !in directories {
      AzureCandidateAt(chain, j);
    }
  }

  /** A config.json that names a usable default environment. */
  predicate NamesDefaultEnvironment(doc: ConfigDocument) {
    && doc.ObjectRoot?
    && doc.defaultEnvironment.Some?
    && doc.defaultEnvironment.value.JsonString?
    && !IsWhiteSpaceOnly(doc.defaultEnvironment.value.text)
  }

  /** GetDefaultEnvironmentName: the defaultEnvironment property of the
      .azure directory's config.json. */
  function GetDefaultEnvironmentName(fs: FileSystem, azureDirectory: string): (r: Result<string>)
    ensures !FileExists(fs.files, ConfigFileOf(azureDirectory)) ==> r == Err(FileNotFound)
    ensures r.Ok? <==> FileExists(fs.files, ConfigFileOf(azureDirectory))
                       && NamesDefaultEnvironment(ReadConfig(fs, ConfigFileOf(azureDirectory)))
    ensures r.Ok? ==> r.value == ReadConfig(fs, ConfigFileOf(azureDirectory)).defaultEnvironment.value.text
                      && !IsWhiteSpaceOnly(r.value)
    ensures r.Err? && FileExists(fs.files, ConfigFileOf(azureDirectory)) ==>
              r.error == if ReadConfig(fs, ConfigFileOf(azureDirectory)).Malformed? then MalformedJson
                         else InvalidOperation
  {
    var configFile := ConfigFileOf(azureDirectory);
    if !FileExists(fs.files, configFile) then Err(FileNotFound)
    else
      match ReadConfig(fs, configFile)
      case Malformed => Err(MalformedJson)
      case NonObjectRoot => Err(InvalidOperation)
      case ObjectRoot(None) => Err(InvalidOperation)
      case ObjectRoot(Some(element)) =>
        match element
        case JsonOther => Err(InvalidOperation)
        case JsonNull => Err(InvalidOperation)
        case JsonString(name) => if IsWhiteSpaceOnly(name) then Err(InvalidOperation) else Ok(name)
  }

  /** GetEnvFileForEnvironment: <azureDirectory>/<name>/.env, if that file exists. */
  function GetEnvFileForEnvironment(fs: FileSystem, azureDirectory: string, name: string): (r: Result<string>)
    ensures r.Ok? <==> FileExists(fs.files, EnvFileOf(azureDirectory, name))
    ensures r.Ok? ==> r.value == EnvFileOf(azureDirectory, name)
    ensures r.Err? ==> r.error == FileNotFound
  {
    var envFile := EnvFileOf(azureDirectory, name);
    if !FileExists(fs.files, envFile) then Err(FileNotFound) else Ok(envFile)
  }

  /** Every env file path the locator can form names a file called .env in
      a directory of its own. */
  lemma EnvFileShape(azureDirectory: string, name: string)
    ensures FileName(EnvFileOf(azureDirectory, name)) == ".env"
    ensures DirectoryName(EnvFileOf(azureDirectory, name)).Some?
    ensures !IsWhiteSpaceOnly(EnvFileOf(azureDirectory, name))
  {
    var directory := Combine(azureDirectory, name);
    FileNameOfCombine(directory, ".env");
    EndsWithEnv(Combine(directory, ".env"));
  }

  /** A path ending in ".env" is not blank and has a directory. */
  lemma EndsWithEnv(p: string)
    requires |p| >= 4 && p[|p| - 4..] == ".env"
    ensures !IsWhiteSpaceOnly(p) && DirectoryName(p).Some?
  {
    assert p[|p| - 1] == 'v';
    assert !IsWhiteSpace('v');
  }

  /** The three steps of the try block, in order; the first failure ends it. */
  function Locate(fs: FileSystem): (r: Result<string>)
    ensures r.Ok? ==> FileExists(fs.files, r.value) && FileName(r.value) == ".env"
                      && DirectoryName(r.value).Some? && !IsWhiteSpaceOnly(r.value)
    ensures r.Err? ==> r.error in {DirectoryNotFound, FileNotFound, InvalidOperation, MalformedJson}
    ensures GetAzureDirectory(fs.chain, fs.directories).Err? ==> r == Err(DirectoryNotFound)
    ensures var azure := GetAzureDirectory(fs.chain, fs.directories);
            azure.Ok? && GetDefaultEnvironmentName(fs, azure.value).Err? ==>
              r == Err(GetDefaultEnvironmentName(fs, azure.value).error)
    ensures var azure := GetAzureDirectory(fs.chain, fs.directories);
            azure.Ok? && GetDefaultEnvironmentName(fs, azure.value).Ok? ==>
              var envFile := EnvFileOf(azure.value, GetDefaultEnvironmentName(fs, azure.value).value);
              && (r.Ok? <==> FileExists(fs.files, envFile))
              && (r.Ok? ==> r.value == envFile)
              && (r.Err? ==> r.error == FileNotFound)
  {
    var azureDirectory :- GetAzureDirectory(fs.chain, fs.directories);
    var name :- GetDefaultEnvironmentName(fs, azureDirectory);
    EnvFileShape(azureDirectory, name);
    GetEnvFileForEnvironment(fs, azureDirectory, name)
  }

  /** End to end: when chain[i] is the nearest directory with .azure, its
      config.json names a default environment and that environment's .env
      file exists, Locate returns that file. */
  lemma LocateFindsEnvFile(fs: FileSystem, i: nat)
    requires i < |fs.chain| && AzureDirectoryOf(fs.chain[i]) in fs.directories
    requires forall j :: 0 <= j < i ==> AzureDirectoryOf(fs.chain[j]) !in fs.directories
    requires var config := ConfigFileOf(AzureDirectoryOf(fs.chain[i]));
             FileExists(fs.files, config) && NamesDefaultEnvironment(ReadConfig(fs, config))
    requires var config := ConfigFileOf(AzureDirectoryOf(fs.chain[i]));
             FileExists(fs.files, EnvFileOf(AzureDirectoryOf(fs.chain[i]), ReadConfig(fs, config).defaultEnvironment.value.text))
    ensures var config := ConfigFileOf(AzureDirectoryOf(fs.chain[i]));
            Locate(fs) == Ok(EnvFileOf(AzureDirectoryOf(fs.chain[i]), ReadConfig(fs, config).defaultEnvironment.value.text))
  {
    GetAzureDirectoryNearest(fs.chain, fs.directories, i);
  }

  /** LocateEnvFileOfDefaultAzdEnvironment: when optional, any failure of
      Locate becomes the empty path; otherwise it propagates unchanged. */
  function LocateEnvFileOfDefaultAzdEnvironment(fs: FileSystem, optional: bool): (r: Result<string>)
    ensures optional ==> r.Ok?
    ensures optional && Locate(fs).Err? ==> r == Ok("")
    ensures !optional ==> r == Locate(fs)
    ensures Locate(fs).Ok? ==> r == Locate(fs)
  {
    match Locate(fs)
    case Ok(path) => Ok(path)
    case Err(e) => if optional then Ok("") else Err(e)
  }

  /** The first step decides alone: if no ancestor has .azure, neither the
      files nor their contents are consulted. */
  lemma DirectoryFailureIgnoresFiles(fs: FileSystem, other: FileSystem)
    requires fs.chain == other.chain && fs.directories == other.directories
    requires GetAzureDirectory(fs.chain, fs.directories).Err?
    ensures Locate(fs) == Locate(other) == Err(DirectoryNotFound)
  {
  }

  /** The second step decides before the third: if config.json does not
      yield a name, whether any .env file exists is never consulted. */
  lemma ConfigFailureIgnoresEnvFiles(fs: FileSystem, other: FileSystem)
    requires fs.chain == other.chain && fs.directories == other.directories && fs.configs == other.configs
    requires GetAzureDirectory(fs.chain, fs.directories).Ok?
    requires var config := ConfigFileOf(GetAzureDirectory(fs.chain, fs.directories).value);
             FileExists(fs.files, config) <==> FileExists(other.files, config)
    requires GetDefaultEnvironmentName(fs, GetAzureDirectory(fs.chain, fs.directories).value).Err?
    ensures Locate(fs) == Locate(other)
    ensures Locate(fs) == Err(GetDefaultEnvironmentName(fs, GetAzureDirectory(fs.chain, fs.directories).value).error)
  {
  }

  /** With absolute ancestors, the located .env file has an absolute path. */
  lemma LocatedFileIsRooted(fs: FileSystem)
    requires IsAbsoluteChain(fs.chain) && Locate(fs).Ok?
    ensures IsRooted(Locate(fs).value)
  {
    var azureDirectory := GetAzureDirectory(fs.chain, fs.directories).value;
    var i :| 0 <= i < |fs.chain| && azureDirectory == AzureCandidates(fs.chain)[i];
    AzureCandidateAt(fs.chain, i);
    CombineKeepsRoot(fs.chain[i], ".azure");
    var name := GetDefaultEnvironmentName(fs, azureDirectory).value;
    CombineKeepsRoot(azureDirectory, name);
    CombineKeepsRoot(Combine(azureDirectory, name), ".env");
  }
}
