# azd .env configuration loading, modelled in Dafny

The integration tests of this repository read their settings from the `.env`
file of the default Azure Developer CLI (azd) environment. Four pieces do this:

- `AzdEnvironmentFileLocator` walks up from the application's base directory
  to the nearest `.azure` directory. It reads `defaultEnvironment` from
  `.azure/config.json` and returns the path of `.azure/<environment>/.env`.
  When the call is optional, any failure turns into the empty path.
- `AzdEnvironmentVariablesExtensions` has three `AddAzdEnvironmentVariables`
  overloads. They locate the file, then refuse or skip a blank path, and
  hand any other path to `AddEnvFile`.
- `EnvFileExtensions.AddEnvFile` checks the path and that the file exists.
  It then registers an `EnvFileConfigurationSource`. The source holds the
  file name, the optional flag, `ReloadOnChange = false`, and a file
  provider rooted at the file's directory.
- `EnvFileConfigurationProvider.Load` reads the file line by line:
  - trims each line;
  - skips blank lines, `#` comments and lines without `=`;
  - splits at the first `=` and trims both sides;
  - removes one pair of surrounding double quotes from the value;
  - stores the pair. A later line for the same key wins.

The model has eight modules:

- `Failures` holds `Result`, `Option` and the exception kinds.
- `Text` models .NET `char.IsWhiteSpace`, `string.Trim` and `IndexOf`.
  White space is the fixed set of 25 characters that `char.IsWhiteSpace` accepts.
- `Paths` models Unix `Path.Combine`, `GetFileName` and `GetDirectoryName`.
- `Sequences` maps a function over a sequence.
- `EnvFileParser` models `Load`.
- `AzdEnvironmentFileLocator`, `EnvFileExtensions` and
  `AzdEnvironmentVariablesExtensions` model the class of the same name.

Exceptions become `Err` values, with one `Error` kind per exception type.

The filesystem is a value (`FileSystem`) with these parts:

- the chain of the base directory and its ancestors, nearest first;
- the set of existing directories;
- the set of existing files. `Paths.FileExists` reads it as `File.Exists` does: a path that ends with '/' names a directory, so it is never a file;
- the parsed JSON documents of config files. A file that is not listed counts as malformed JSON.

`Load` takes the file's lines as a sequence. It classifies each line with
`ParseLine`, which follows the loop body's branches in the same order.

## Model

| member | source | states |
|---|---|---|
| Text.Trim | tests/IntegrationTests/Configuration/Azd/EnvFileConfigurationProvider.cs:32 | the trimmed line has no white space at either end and is no longer than the line |
| Text.TrimRemovesOuterWhiteSpace | tests/IntegrationTests/Configuration/Azd/EnvFileConfigurationProvider.cs:32 | Trim only removes white space: the result is a slice of the input with white space only before and after it |
| Text.TrimIsUnique | tests/IntegrationTests/Configuration/Azd/EnvFileConfigurationProvider.cs:32 | any white-space-only cut that leaves a trimmed slice is what Trim gives: the reference definition and the function agree |
| Text.TrimOfTrimmed | tests/IntegrationTests/Configuration/Azd/EnvFileConfigurationProvider.cs:32-46 | Trim leaves a string with no outer white space unchanged. So the line, key and quoted value of a written entry come through the trims of lines 32 and 45-46 as they were |
| Text.TrimKeepsAbsent | tests/IntegrationTests/Configuration/Azd/EnvFileConfigurationProvider.cs:45 | the key, cut before the first '=', contains no '=' after trimming |
| Text.LeadingWhiteSpaceIsWhiteSpace | tests/IntegrationTests/Configuration/Azd/EnvFileConfigurationProvider.cs:32 | the prefix Trim drops is white space only |
| Text.TrailingWhiteSpaceIsWhiteSpace | tests/IntegrationTests/Configuration/Azd/EnvFileConfigurationProvider.cs:32 | the suffix Trim drops is white space only |
| Text.IndexOf | tests/IntegrationTests/Configuration/Azd/EnvFileConfigurationProvider.cs:39-43 | -1 exactly when '=' is absent; otherwise the position of an '=' with none before it |
| Text.IndexOfFirst | tests/IntegrationTests/Configuration/Azd/EnvFileConfigurationProvider.cs:39 | the first occurrence of a character is the index IndexOf reports |
| EnvFileParser.StripQuotes | tests/IntegrationTests/Configuration/Azd/EnvFileConfigurationProvider.cs:49-52 | a value of length at least 2 that starts and ends with '"' loses exactly that outer pair, which quoting puts back; any other value is kept as is |
| EnvFileParser.StripQuotesOfQuote | tests/IntegrationTests/Configuration/Azd/EnvFileConfigurationProvider.cs:49-52 | stripping the quotes of a quoted value gives the value back, inner quotes included |
| EnvFileParser.ParseLine | tests/IntegrationTests/Configuration/Azd/EnvFileConfigurationProvider.cs:45 | the key of an entry is trimmed and free of '=' |
| EnvFileParser.ParseLineCases | tests/IntegrationTests/Configuration/Azd/EnvFileConfigurationProvider.cs:32-54 | each of the four outcomes holds exactly when its condition on the trimmed line holds: empty, starts with '#', no '=', or '=' present. An entry splits the line at its first '=' into the trimmed key and the trimmed, unquoted value |
| EnvFileParser.ParseFormattedEntry | tests/IntegrationTests/Configuration/Azd/EnvFileConfigurationProvider.cs:32-54 | a line written as KEY="value" reads back as exactly that pair, whatever the value holds ('=', '#' and quotes included, so there are no inline comments), for any key that is trimmed, has no '=' and does not start with '#' |
| EnvFileParser.ClassifyAt | tests/IntegrationTests/Configuration/Azd/EnvFileConfigurationProvider.cs:29-36 | the lines are read in order, and each one is classified on its own |
| EnvFileParser.CollectKeepsLastEntry | tests/IntegrationTests/Configuration/Azd/EnvFileConfigurationProvider.cs:54 | a key is stored exactly when some line is an entry for it, and it holds the value of the last such line |
| EnvFileParser.ParseKeysAreTrimmed | tests/IntegrationTests/Configuration/Azd/EnvFileConfigurationProvider.cs:45 | every key in the loaded data is trimmed and contains no '=' |
| EnvFileParser.ParseConcat | tests/IntegrationTests/Configuration/Azd/EnvFileConfigurationProvider.cs:29-54 | loading a file in two parts and laying the second part's data over the first gives the data of the whole file |
| EnvFileParser.SkippedLineIsInert | tests/IntegrationTests/Configuration/Azd/EnvFileConfigurationProvider.cs:33-43 | a blank line, a comment or a line without '=' can be deleted without changing the loaded data |
| EnvFileParser.Load | tests/IntegrationTests/Configuration/Azd/EnvFileConfigurationProvider.cs:22-58 | the read loop builds a fresh dictionary equal to the declarative parse of all lines, and replaces the provider's data with it |
| Paths.Combine | tests/IntegrationTests/Configuration/Azd/AzdEnvironmentFileLocator.cs:43 | an empty first part gives the second. Otherwise the second part ends the result. A non-empty first part starts it, and exactly one separator joins them: none is added when the first part already ends with one. An empty second part gives the first, and a rooted second part replaces it |
| Paths.FileNameIsLastComponent | tests/IntegrationTests/Configuration/Azd/EnvFileExtensions.cs:41 | GetFileName is a suffix of the path without separators, either the whole path or preceded by a separator |
| Paths.DirectoryName | tests/IntegrationTests/Configuration/Azd/EnvFileExtensions.cs:36 | GetDirectoryName is null exactly for "" and "/", and is otherwise a proper prefix of the path |
| Paths.FileNameOfCombine | tests/IntegrationTests/Configuration/Azd/EnvFileExtensions.cs:41 | GetFileName of Combine(directory, name) is name when name is non-empty and has no separator |
| Paths.DirectoryNameOfCombine | tests/IntegrationTests/Configuration/Azd/EnvFileExtensions.cs:36 | GetDirectoryName of Combine(directory, name) is the directory when name is non-empty with no separator, and the directory is non-empty with no trailing separator |
| Paths.SplitRecombines | tests/IntegrationTests/Configuration/Azd/EnvFileExtensions.cs:36-44 | combining GetDirectoryName and GetFileName of a path gives the path back. This needs a non-empty file name with a single separator in front of it |
| Paths.DirectoryNameKeepsRoot | tests/IntegrationTests/Configuration/Azd/EnvFileExtensions.cs:36-37 | the directory of an absolute path is absolute |
| Paths.CombineKeepsRoot | tests/IntegrationTests/Configuration/Azd/AzdEnvironmentFileLocator.cs:43 | combining onto an absolute path gives an absolute path |
| AzdEnvironmentFileLocator.GetAzureDirectory | tests/IntegrationTests/Configuration/Azd/AzdEnvironmentFileLocator.cs:37-52 | success returns the .azure directory of the nearest ancestor that has one. Otherwise the result is DirectoryNotFound and no ancestor has one |
| AzdEnvironmentFileLocator.AzureCandidateAt | tests/IntegrationTests/Configuration/Azd/AzdEnvironmentFileLocator.cs:43 | the i-th directory probed is the .azure directory of the i-th ancestor |
| AzdEnvironmentFileLocator.GetAzureDirectoryNearest | tests/IntegrationTests/Configuration/Azd/AzdEnvironmentFileLocator.cs:41-47 | if ancestor i is the first with an .azure directory, that directory is the answer |
| AzdEnvironmentFileLocator.GetAzureDirectoryNone | tests/IntegrationTests/Configuration/Azd/AzdEnvironmentFileLocator.cs:51 | with no .azure directory anywhere up the chain, the answer is DirectoryNotFound |
| AzdEnvironmentFileLocator.GetDefaultEnvironmentName | tests/IntegrationTests/Configuration/Azd/AzdEnvironmentFileLocator.cs:54-76 | a missing config.json gives FileNotFound and malformed JSON gives JsonException. A non-object root, a missing property, a non-string or null value, or a blank name gives InvalidOperation. Success happens exactly when the config holds a non-blank string name, and returns that name |
| AzdEnvironmentFileLocator.GetEnvFileForEnvironment | tests/IntegrationTests/Configuration/Azd/AzdEnvironmentFileLocator.cs:78-87 | returns <azure>/<name>/.env exactly when that file exists, and FileNotFound otherwise |
| AzdEnvironmentFileLocator.EnvFileShape | tests/IntegrationTests/Configuration/Azd/AzdEnvironmentFileLocator.cs:80 | every env file path formed has file name ".env", a directory, and is not blank |
| AzdEnvironmentFileLocator.Locate | tests/IntegrationTests/Configuration/Azd/AzdEnvironmentFileLocator.cs:14-25 | the steps run in order and the first failure is the result. No .azure directory gives DirectoryNotFound, and a config failure is returned as is. Once a name is found, the result is <azure>/<name>/.env exactly when that file exists, and FileNotFound otherwise. A located path names an existing file called .env that has a directory and is not blank. A failure is one of the three documented kinds (DirectoryNotFound, FileNotFound, InvalidOperation), or the JsonException of line 63 |
| AzdEnvironmentFileLocator.LocateFindsEnvFile | tests/IntegrationTests/Configuration/Azd/AzdEnvironmentFileLocator.cs:14-25 | when the nearest directory with .azure has a config.json naming a default environment whose .env exists, that .env file is the result |
| AzdEnvironmentFileLocator.LocateEnvFileOfDefaultAzdEnvironment | tests/IntegrationTests/Configuration/Azd/AzdEnvironmentFileLocator.cs:18-35 | when optional, the call never fails and any failure becomes "". When not optional, the failure propagates unchanged. A success is returned as is |
| AzdEnvironmentFileLocator.DirectoryFailureIgnoresFiles | tests/IntegrationTests/Configuration/Azd/AzdEnvironmentFileLocator.cs:22-23 | when no .azure directory is found, no file or config content affects the outcome |
| AzdEnvironmentFileLocator.ConfigFailureIgnoresEnvFiles | tests/IntegrationTests/Configuration/Azd/AzdEnvironmentFileLocator.cs:23-24 | when config.json yields no name, the .env files do not affect the outcome, which is that step's error |
| AzdEnvironmentFileLocator.LocatedFileIsRooted | tests/IntegrationTests/Configuration/Azd/AzdEnvironmentFileLocator.cs:39-43 | starting from absolute directory names, the located file has an absolute path |
| EnvFileExtensions.AddEnvFile | tests/IntegrationTests/Configuration/Azd/EnvFileExtensions.cs:19-46 | a blank path gives ArgumentNull. A missing file gives FileNotFound, or the builder unchanged when optional. An existing non-blank path succeeds exactly when its directory is absolute, and otherwise gives ArgumentException. Success keeps every existing source and adds at most one: an existing file adds exactly one, naming the file, its flag, no reload and its absolute directory |
| EnvFileExtensions.AddEnvFileRegistersAbsolutePath | tests/IntegrationTests/Configuration/Azd/EnvFileExtensions.cs:26-45 | an existing file with an absolute path is always registered as the last source |
| EnvFileExtensions.AddEnvFileRefusesPathWithoutAbsoluteDirectory | tests/IntegrationTests/Configuration/Azd/EnvFileExtensions.cs:36-37 | an existing path whose directory is relative is refused with ArgumentException, even when optional |
| EnvFileExtensions.ExistingFileHasDirectory | tests/IntegrationTests/Configuration/Azd/EnvFileExtensions.cs:26-36 | GetDirectoryName is never null for a path File.Exists accepts, so the ArgumentException of the null check cannot be thrown |
| EnvFileExtensions.AddEnvFileTreatsRootAsMissing | tests/IntegrationTests/Configuration/Azd/EnvFileExtensions.cs:26-32 | "/" is a directory, not a file: it gives FileNotFound, or the builder unchanged when optional |
| EnvFileExtensions.AddEnvFileRefusesRelativePath | tests/IntegrationTests/Configuration/Azd/EnvFileExtensions.cs:36-37 | an existing file with a relative path is refused with ArgumentException, even when optional |
| EnvFileExtensions.RegisteredSourceNamesTheFile | tests/IntegrationTests/Configuration/Azd/EnvFileExtensions.cs:36-44 | when the file name is non-empty and a single separator precedes it, the registered root joined with the registered file name is the original path |
| AzdEnvironmentVariablesExtensions.AddAzdEnvironmentVariablesAt | tests/IntegrationTests/Configuration/Azd/AzdEnvironmentVariablesExtensions.cs:39-51 | a blank path gives ArgumentException, or the builder unchanged when optional. Any other path is added by AddEnvFile, so ArgumentNull never escapes |
| AzdEnvironmentVariablesExtensions.AddAzdEnvironmentVariablesWith | tests/IntegrationTests/Configuration/Azd/AzdEnvironmentVariablesExtensions.cs:26-30 | a failed lookup gives the builder unchanged when optional and the lookup's error otherwise. After a successful lookup, success adds exactly one source after the existing ones, for the located file, named ".env"; failure is the ArgumentException of a located path without an absolute directory |
| AzdEnvironmentVariablesExtensions.LocatedFileIsAdded | tests/IntegrationTests/Configuration/Azd/AzdEnvironmentVariablesExtensions.cs:28-29 | with absolute ancestor names, a located file is always added |
| AzdEnvironmentVariablesExtensions.AzdEnvFileIsAdded | tests/IntegrationTests/Configuration/Azd/AzdEnvironmentVariablesExtensions.cs:26-30 | with absolute ancestor names, when the nearest .azure directory names a default environment whose .env exists, that file is added as the last source, with either flag |
| AzdEnvironmentVariablesExtensions.AddAzdEnvironmentVariables | tests/IntegrationTests/Configuration/Azd/AzdEnvironmentVariablesExtensions.cs:15-18 | the same as the optional overload with optional false: a lookup failure is the call's failure, and a success keeps the existing sources and adds one for the located file with optional false |
| AzdEnvironmentVariablesExtensions.OptionalNeverFails | tests/IntegrationTests/Configuration/Azd/AzdEnvironmentVariablesExtensions.cs:26-30 | with optional set and absolute ancestor names, the call always succeeds |
| AzdEnvironmentVariablesExtensions.AddedSourceReadsLocatedFile | tests/IntegrationTests/Configuration/Azd/AzdEnvironmentVariablesExtensions.cs:26-30 | for an environment name without separators, the added source is rooted at <azure>/<name>, and its root and path combine to the located file |

## Left out

- Reading a stream is not modelled: `Load` receives the lines `StreamReader.ReadLine` would return. Line splitting, encodings and a byte-order mark are left out.
- Parsing JSON is not modelled: a config file is given as its outcome, `ConfigDocument`. `File.ReadAllText` I/O errors are left out too.
- The file system and `AppContext.BaseDirectory` are not modelled. A `FileSystem` value replaces them. Its chain stands for `DirectoryInfo.FullName` and `Parent` up to the root.
- `Trace.WriteLine` in the optional branch is a diagnostic side effect and is left out.
- Only Unix paths are modelled. `GetDirectoryName` collapsing repeated separators is left out, and so are Windows roots, drive letters and `\`.
- `Path.Combine(a, b, c)` at AzdEnvironmentFileLocator.cs:80 is modelled as `Combine(Combine(a, b), c)`. On Unix the two agree: an empty part is dropped and the last rooted part starts the result.
- Null strings are left out: no caller passes null.
- `PhysicalFileProvider` checks its root twice. The model keeps the first check: the root must be absolute, or the constructor throws ArgumentException. The second check throws DirectoryNotFoundException for a root that does not exist. That check cannot fire here, because `File.Exists(path)` holds and so the file's directory exists. The model's file and directory sets are independent, so this link is assumed, not stated. The provider itself, `ExclusionFilters` and file watching are left out.
- `AddEnvFile(builder, Action<EnvFileConfigurationSource>)` and `EnvFileConfigurationSource.Build` are modelled only through the `EnvFileSource` value they add.
- `AzdEnvironmentVariablesConfigurationSource` and `TestConfiguration` are not part of this model.
- `Load` is written as a loop that calls `ParseLine` for each line. `ParseLine` holds the branches of the loop body of `EnvFileConfigurationProvider.Load`, in its order. A `continue` there is an outcome other than `Entry`.
- EnvFileParser.CollectKeepsLastEntry: states "last entry wins" over the classified lines, `Classify(lines)`. `ClassifyAt` links position i to `ParseLine(lines[i])`. There is no single lemma over the raw lines.
- AzdEnvironmentVariablesExtensions.AddAzdEnvironmentVariablesWith: the promise that a located file is added (`LocatedFileIsAdded`) assumes absolute ancestor names, as `DirectoryInfo.FullName` always gives. For relative names, `AddEnvFile` would refuse the path.
