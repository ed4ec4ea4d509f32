# docker-stacks: a verified model of the tagging and package-test logic

This project models the deterministic text handling of the Jupyter
docker-stacks build and test scripts, and proves properties of it:

- **CondaPackages.** `CondaPackageHelper` covers these steps:
  - parsing the dependency specifications of `mamba env export` into a map from package name to a set of versions;
  - parsing the `mamba search --outdated` listing;
  - the `semantic_cmp` sort key, in module **SemanticVersion**;
  - the comparison done by `check_updatable_packages`;
  - the three accessors that query the container only on their first call.

  The helper is a `class`. Its cached fields are `Option`s, and every command it runs in the container is logged in a `commands` field.
- **TestPackages.** The import test of the requested packages covers R/Python classification, import names, the exclusion list, the two selections, and the loop that tries every import and gathers the failures.
- **Taggers.** These are the tag values each tagger derives from a program's `--version` output or from `pip show`.
- **ImagesHierarchy.** This is the `ALL_IMAGES` parent table, with an ancestor walk that is proved to terminate. Each image's lineage and its effective taggers are also covered.
- **MergeTags.** `merge_tags` first reads every architecture prefix's tag file and strips the prefix from each tag. It then pulls every tag once per prefix and builds its manifest command.
- **GenerateMatrix.** `generate_matrix` produces one entry per recipe dockerfile and runner.

Shared modules:
- **Exceptions** holds the Python exceptions that can escape, plus `Option` and `Result`.
- **PyStr** holds the exact Python semantics of `startswith`, `split()`, `split(c)`, `splitlines`, `rfind` and `replace`, and a `startswith` filter.
- **OrderedDict** holds an insertion-ordered `dict`.

Conventions used throughout:
- A command run in a container is an oracle parameter, either `string -> Result<string>` or a fixed answer.
- A file read is a parameter `string -> Option<string>`.
- A `docker pull` is a parameter `string -> bool`.
- An operation that can raise returns a `Result` whose error names the Python exception.

## Model

| member | source | states |
|---|---|---|
| CondaPackages.EqSplit | tests/utils/conda_package_helper.py:80 | `re.split("=?=")` yields at least one piece, no piece contains `=`, and a string without `=` is a single piece |
| CondaPackages.EqSplitAfterName | tests/utils/conda_package_helper.py:80 | `name=rest` and `name==rest` are cut right after `name` |
| CondaPackages.ParseEntry | tests/utils/conda_package_helper.py:80-93 | no contract of its own: the parse of one requested or installed entry; ParseEntryNoSeparator, ParseEntryVersioned, ParseEntryNotAVersion and ParseEntryEmptyVersion state its four cases |
| CondaPackages.ParseEntryNoSeparator | tests/utils/conda_package_helper.py:82-83 | an entry with no `=` maps to itself with an empty version set |
| CondaPackages.ParseEntryVersioned | tests/utils/conda_package_helper.py:85-89 | `name=v` or `name==v` with a leading digit maps `name` to the set of all remaining pieces |
| CondaPackages.ParseEntryNotAVersion | tests/utils/conda_package_helper.py:90-92 | when the text after the separator does not start with a digit, the key is `split[0]=split[1]`, the set is empty and later pieces are dropped |
| CondaPackages.ParseEntryEmptyVersion | tests/utils/conda_package_helper.py:87 | an empty `split[1]` raises IndexError |
| CondaPackages.ParseEntryChannelExample | tests/utils/conda_package_helper.py:90-92 | `conda-forge::blas=*` stays a whole key with no versions |
| CondaPackages.ParseEntryLowerBoundExample | tests/utils/conda_package_helper.py:80-89 | `notebook>=7` becomes the key `notebook>` with version `7` |
| CondaPackages.PackageVersions | tests/utils/conda_package_helper.py:79-94 | the dictionary built is a well-formed insertion-ordered map |
| CondaPackages.AddEntry | tests/utils/conda_package_helper.py:81-93 | one turn of the loop keeps the map well formed |
| CondaPackages.ParsePackageVersions | tests/utils/conda_package_helper.py:72-94 | the loop computes exactly the specified dictionary or the IndexError |
| CondaPackages.PackageVersionsErrorSticks | tests/utils/conda_package_helper.py:80-93 | once an entry raises, the whole parse raises that error |
| CondaPackages.PackageVersionsFails | tests/utils/conda_package_helper.py:80-93 | parsing raises exactly when some string entry raises, and the error is IndexError |
| CondaPackages.PipSectionsDropped | tests/utils/conda_package_helper.py:74-78 | the dictionary entries (the pip section) are ignored: parsing equals parsing the strings only |
| CondaPackages.SpecsOnly | tests/utils/conda_package_helper.py:78 | the filter keeps only the string entries |
| CondaPackages.SpecsOnlyAppend | tests/utils/conda_package_helper.py:78 | the filter keeps order and distributes over appending |
| CondaPackages.PackageVersionsKeys | tests/utils/conda_package_helper.py:79-93 | a key is in the map exactly when some string entry parses to that key |
| CondaPackages.LastEntryWins | tests/utils/conda_package_helper.py:93 | the versions stored for a key are those of the last entry with that key |
| CondaPackages.MatchPackageLine | tests/utils/conda_package_helper.py:113 | no contract of its own: the regular expression `^(\S+)\s+(\S+)`; MatchIsFirstTwoWords states what it matches and what it yields |
| CondaPackages.MatchIsFirstTwoWords | tests/utils/conda_package_helper.py:113-115 | `^(\S+)\s+(\S+)` matches exactly when the line starts with two whitespace-separated tokens, and it yields those tokens |
| CondaPackages.Matches | tests/utils/conda_package_helper.py:112-113 | one match per listing line, in order |
| CondaPackages.Collect | tests/utils/conda_package_helper.py:111-117 | the defaultdict built is a well-formed map |
| CondaPackages.AddMatch | tests/utils/conda_package_helper.py:114-116 | adding one match keeps the map well formed |
| CondaPackages.Available | tests/utils/conda_package_helper.py:109-117 | no contract of its own: the map `_extract_available` returns, or its AssertionError; ExtractAvailable computes it, and HeaderIgnored, AvailableFails and AvailableVersions state what it holds |
| CondaPackages.ExtractAvailable | tests/utils/conda_package_helper.py:109-117 | the loop computes exactly the specified map or the AssertionError |
| CondaPackages.CollectStep | tests/utils/conda_package_helper.py:113-116 | one more listing line adds its version to its package's set, or fails when the line does not match |
| CondaPackages.CollectErrorSticks | tests/utils/conda_package_helper.py:114 | once a line fails to match, the whole parse fails with that error |
| CondaPackages.HeaderIgnored | tests/utils/conda_package_helper.py:112 | the first two lines never affect the result |
| CondaPackages.CollectFails | tests/utils/conda_package_helper.py:113-114 | collecting fails exactly when some match is missing, and then with AssertionError |
| CondaPackages.AvailableFails | tests/utils/conda_package_helper.py:112-114 | the listing fails exactly when some body line does not match, and then with AssertionError |
| CondaPackages.CollectVersions | tests/utils/conda_package_helper.py:115-116 | a version is in a package's set exactly when some match pairs them |
| CondaPackages.AvailableVersions | tests/utils/conda_package_helper.py:111-117 | a version is listed for a package exactly when some body line pairs the two; versions accumulate |
| CondaPackages.MinKeyExists | tests/utils/conda_package_helper.py:134 | a non-empty set has an element with the smallest key |
| CondaPackages.MaxKeyExists | tests/utils/conda_package_helper.py:129-135 | a non-empty set has an element with the largest key |
| CondaPackages.MinByKey | tests/utils/conda_package_helper.py:134 | `min(..., key=semantic_cmp)` is an element with the smallest key, and it raises ValueError exactly on an empty set |
| CondaPackages.NewestByKey | tests/utils/conda_package_helper.py:129-135 | `sorted(..., key)[-1]` is an element with the largest key, and it raises IndexError exactly on an empty set |
| CondaPackages.Outdated | tests/utils/conda_package_helper.py:136-141 | no contract of its own: some available version has a larger key than some installed one; ComparisonDecidesOutdated states that the loop's test decides exactly this |
| CondaPackages.Listed | tests/utils/conda_package_helper.py:127-141 | no contract of its own: whether one installed package gets a row, or the ValueError of `min` on it; ComparePackage computes it and UpdatableNamesAreFiltered states which packages it keeps |
| CondaPackages.UpdatableNames | tests/utils/conda_package_helper.py:126-144 | no contract of its own: the names of the listed packages in installed-map order, or the first ValueError; UpdatableNamesStep, UpdatableNamesErrorSticks and UpdatableNamesAreFiltered state what it holds |
| CondaPackages.ComparisonDecidesOutdated | tests/utils/conda_package_helper.py:136-141 | the test on the smallest installed and largest available version holds exactly when some available version has a larger key than some installed one |
| CondaPackages.UpdatableNamesErrorSticks | tests/utils/conda_package_helper.py:127-134 | once `min` raises for one package, the whole check raises |
| CondaPackages.UpdatableNamesStep | tests/utils/conda_package_helper.py:127-144 | one more installed package is appended when listed, skipped when not, and its ValueError propagates |
| CondaPackages.FailureAt | tests/utils/conda_package_helper.py:126-134 | when `min` raises on one installed package, the whole check raises that ValueError, and the rows gathered so far are those of the packages before it |
| CondaPackages.UpdatableNamesAreFiltered | tests/utils/conda_package_helper.py:127-144 | a package is listed exactly when it is installed, it is requested (when `requested_only`), it has available versions, and it is outdated |
| CondaPackages.ListedOkOnPrefix | tests/utils/conda_package_helper.py:127-134 | when the check succeeds, every installed package's own test succeeds |
| CondaPackages.ComparePackage | tests/utils/conda_package_helper.py:128-144 | one loop turn adds a row exactly when the package is listed; the row holds its smallest installed and largest available version; the ValueError is propagated |
| CondaPackages.CondaPackageHelper.constructor | tests/utils/conda_package_helper.py:42-51 | all three caches are empty, `comparison` is empty and no command has been run |
| CondaPackages.CondaPackageHelper.InstalledPackages | tests/utils/conda_package_helper.py:53-59 | returns the parse of the installed export; the container is queried only while the cache is empty, and later calls leave the cache unchanged |
| CondaPackages.CondaPackageHelper.RequestedPackages | tests/utils/conda_package_helper.py:61-69 | the same, for the `--from-history` export |
| CondaPackages.CondaPackageHelper.AvailablePackages | tests/utils/conda_package_helper.py:96-106 | the same, for the `mamba search --outdated` listing |
| CondaPackages.Queried | tests/utils/conda_package_helper.py:122-124 | no contract of its own: the three maps, or the error of the first accessor that raises; QueryContainer computes it |
| CondaPackages.Updatable | tests/utils/conda_package_helper.py:119-145 | no contract of its own: the names `check_updatable_packages` lists, or the error it raises; CheckUpdatablePackages computes it and UpdatableNamesAreFiltered states which names it holds |
| CondaPackages.QueryLog | tests/utils/conda_package_helper.py:122-124 | the commands run by the three accessors: none when all three maps are cached, only the requested export's when it fails to parse, the requested and installed exports' when the installed one fails, otherwise one per empty cache |
| CondaPackages.CondaPackageHelper.QueryContainer | tests/utils/conda_package_helper.py:122-124 | the three maps, or the error of the first accessor that raises; the commands are those of `QueryLog`; a cache is filled exactly when its accessor ran and parsed, and on success all three caches hold the returned maps |
| CondaPackages.CondaPackageHelper.CheckUpdatablePackages | tests/utils/conda_package_helper.py:119-145 | raises exactly when an accessor or `min` raises, with that error; the commands are those of `QueryLog`; afterwards each cache is filled exactly when its accessor ran and parsed, and on success all three hold the parsed maps; when an accessor raises `comparison` is left as it was; when `min` raises it holds the rows of the packages before the failing one; otherwise `comparison` is the returned list, one row per listed package with its smallest installed and largest available version |
| CondaPackages.CondaPackageHelper.CompareInstalled | tests/utils/conda_package_helper.py:125-144 | the loop leaves `comparison` holding one row per listed package, in installed-map order; when `min` raises on a package, it raises that ValueError and `comparison` holds the rows of all packages before it |
| SemanticVersion.StrOrd | tests/utils/conda_package_helper.py:157-162 | the accumulator loop computes the code points read as base-255 digits |
| SemanticVersion.TryInt | tests/utils/conda_package_helper.py:164-168 | no contract of its own: `try_int`, the integer value of a numeral and `str_ord` otherwise; KeyOfNumeral and KeyOfLetters state its two branches |
| SemanticVersion.SemanticKey | tests/utils/conda_package_helper.py:148-171 | no contract of its own: the key `semantic_cmp` sorts by; KeyIsRunValues, KeySeparator, KeyOfNoRuns, DottedNumbers and VersionExamples state what it is |
| SemanticVersion.MySplitIsRuns | tests/utils/conda_package_helper.py:151-155 | splitting at `.` first does not change the runs found |
| SemanticVersion.RunsOfJoin | tests/utils/conda_package_helper.py:151-155 | the runs of dot-joined pieces are the runs of each piece, in order |
| SemanticVersion.KeyIsRunValues | tests/utils/conda_package_helper.py:164-171 | the key has one `try_int` value per letter or digit run |
| SemanticVersion.KeySeparator | tests/utils/conda_package_helper.py:153 | characters other than `[A-z]` and digits are dropped: they only separate runs |
| SemanticVersion.KeyOfNoRuns | tests/utils/conda_package_helper.py:153 | a string of dropped characters has the empty key |
| SemanticVersion.KeyOfNumeral | tests/utils/conda_package_helper.py:164-166 | a digit run's key is its integer value |
| SemanticVersion.KeyOfLetters | tests/utils/conda_package_helper.py:157-168 | a letter run's key is its base-255 value |
| SemanticVersion.DecimalLeadingZero | tests/utils/conda_package_helper.py:166 | leading zeros do not change a numeral's value |
| SemanticVersion.DottedNumbers | tests/utils/conda_package_helper.py:151-171 | `m.n` has the key `[int(m), int(n)]` |
| SemanticVersion.VersionExamples | tests/utils/conda_package_helper.py:151-171 | `1.9` sorts before `1.10`, and `1.01` has the same key as `1.1` |
| SemanticVersion.PrefixIsLess | tests/utils/conda_package_helper.py:171 | a tuple that is a proper prefix of a longer one is smaller |
| SemanticVersion.TupleLessIrreflexive | tests/utils/conda_package_helper.py:139-140 | tuple `<` is irreflexive |
| SemanticVersion.TupleLessTransitive | tests/utils/conda_package_helper.py:139-140 | tuple `<` is transitive |
| SemanticVersion.TupleLessTotal | tests/utils/conda_package_helper.py:129-140 | any two different keys are ordered one way or the other |
| SemanticVersion.TupleLessAsymmetric | tests/utils/conda_package_helper.py:139-140 | tuple `<` is asymmetric |
| TestPackages.IsRPackage | tests/by_image/docker-stacks-foundation/test_packages.py:81-83 | no contract of its own: `package.startswith("r-")`; RSelected and PythonSelected state how it splits the requested packages, and ImportName states what it strips |
| TestPackages.ImportName | tests/by_image/docker-stacks-foundation/test_packages.py:86-90 | `r-` is stripped only from R packages; the result is then looked up in `PACKAGE_MAPPING`, defaulting to itself |
| TestPackages.ImportNameDropsRPrefix | tests/by_image/docker-stacks-foundation/test_packages.py:86-90 | an R package is imported under the name its bare spelling would be |
| TestPackages.ImportNameExamples | tests/by_image/docker-stacks-foundation/test_packages.py:34-47 | `r-rcurl` becomes `RCurl`, `scikit-learn` becomes `sklearn`, `r-rsqlite` becomes `DBI`, and `numpy` and `r-ggplot2` map to `numpy` and `ggplot2` |
| TestPackages.RSelected | tests/by_image/docker-stacks-foundation/test_packages.py:131-135 | exactly the requested R packages that are not excluded |
| TestPackages.PythonSelected | tests/by_image/docker-stacks-foundation/test_packages.py:148-152 | exactly the requested non-R packages that are not excluded |
| TestPackages.RPackages | tests/by_image/docker-stacks-foundation/test_packages.py:128-135 | the import name of each selected R package, in order |
| TestPackages.PythonPackages | tests/by_image/docker-stacks-foundation/test_packages.py:145-152 | the import name of each selected Python package, in order |
| TestPackages.ExactlyOneTest | tests/by_image/docker-stacks-foundation/test_packages.py:128-152 | an excluded name is in neither selection; any other requested name is in exactly one |
| TestPackages.SelectionsPartition | tests/by_image/docker-stacks-foundation/test_packages.py:128-152 | the R, Python and excluded selections together account for every requested name |
| TestPackages.RSelectedKeepsOrder | tests/by_image/docker-stacks-foundation/test_packages.py:131-135 | the R filter keeps the requested order |
| TestPackages.PythonSelectedKeepsOrder | tests/by_image/docker-stacks-foundation/test_packages.py:148-152 | the Python filter keeps the requested order |
| TestPackages.ExcludedExamples | tests/by_image/docker-stacks-foundation/test_packages.py:50-66 | `r-irkernel` and `python` are never import-tested |
| TestPackages.PythonImportCommand | tests/by_image/docker-stacks-foundation/test_packages.py:93-97 | the command is `python -c "import ` followed by the package and a closing `"` |
| TestPackages.RImportCommand | tests/by_image/docker-stacks-foundation/test_packages.py:100-102 | the command is `R --slave -e library(` followed by the package and `)` |
| TestPackages.Failures | tests/by_image/docker-stacks-foundation/test_packages.py:115-125 | no contract of its own: the packages whose check raised AssertionError, in order, or the first other exception; FailuresAreAssertionFailures, FailuresAppend, FailuresErrorSticks and FailuresAbort state what it holds |
| TestPackages.FailuresErrorSticks | tests/by_image/docker-stacks-foundation/test_packages.py:117-123 | an exception other than AssertionError ends the loop |
| TestPackages.FailuresAreAssertionFailures | tests/by_image/docker-stacks-foundation/test_packages.py:117-123 | exactly the packages whose check raised AssertionError are recorded |
| TestPackages.FailuresAppend | tests/by_image/docker-stacks-foundation/test_packages.py:117-123 | failures are recorded in iteration order |
| TestPackages.FailuresAbort | tests/by_image/docker-stacks-foundation/test_packages.py:119-122 | the loop aborts exactly when some check raises an exception other than AssertionError |
| TestPackages.ImportTest | tests/by_image/docker-stacks-foundation/test_packages.py:124-125 | the test fails exactly when the failure list is non-empty, and it reports that list |
| TestPackages.AssertionErrorRecorded | tests/by_image/docker-stacks-foundation/test_packages.py:117-125 | a package whose check raises AssertionError is reported by `pytest.fail`, and the loop goes on to the next package |
| TestPackages.Tried | tests/by_image/docker-stacks-foundation/test_packages.py:117-122 | every package is tried, up to and including the first one that raises an escaping exception |
| TestPackages.CheckImportPackages | tests/by_image/docker-stacks-foundation/test_packages.py:105-125 | the loop's outcome is the specified one, and it tries the packages in order, continuing after an AssertionError |
| TestPackages.TriedStopsAt | tests/by_image/docker-stacks-foundation/test_packages.py:117-122 | an escaping exception stops the loop right after that package |
| TestPackages.TriedAll | tests/by_image/docker-stacks-foundation/test_packages.py:117-123 | without escaping exceptions, every package is tried |
| TestPackages.TestRPackages | tests/by_image/docker-stacks-foundation/test_packages.py:138-142 | the R test runs `R --slave -e library(...)` for each selected R package |
| TestPackages.TestPythonPackages | tests/by_image/docker-stacks-foundation/test_packages.py:155-160 | the Python test runs `python -c "import ..."` for each selected Python package |
| Taggers.ProgramVersion | tagging/taggers/versions.py:9-10 | no contract of its own: the output of `<program> --version`, read from the container oracle; PythonVersion, RVersion, JuliaVersion, JavaVersion and SparkVersion state what is made of it |
| Taggers.PipPackageVersion | tagging/taggers/versions.py:13-23 | no contract of its own: the output of `pip show <package>` passed to PipShowVersion, which states its parse and its two errors |
| Taggers.PipShowVersion | tagging/taggers/versions.py:14-23 | IndexError when there is no second line; AssertionError when that line lacks `Version: `; otherwise the line without the prefix |
| Taggers.PipShowVersionOfLines | tagging/taggers/versions.py:21-23 | a second line `Version: v` yields `v` |
| Taggers.WordTag | tagging/taggers/versions.py:29 | `prefix + output.split()[k]`, or IndexError when there are too few tokens |
| Taggers.WordTagOfWords | tagging/taggers/versions.py:29 | on space-joined words without whitespace, token `k` is word `k` |
| Taggers.PythonVersion | tagging/taggers/versions.py:26-29 | `python-` followed by token 1 of `python --version` |
| Taggers.PythonVersionOfWords | tagging/taggers/versions.py:26-29 | for the output `Python 3.11.4`-like words, the tag is `python-` followed by word 1 |
| Taggers.CutAtLastDot | tagging/taggers/versions.py:36 | `s[:s.rfind(".")]`: a prefix that ends just before the last `.`; without a `.` the last character is dropped |
| Taggers.PythonMajorMinorVersion | tagging/taggers/versions.py:32-36 | the Python tag cut before its last `.`, and a prefix of the Python tag |
| Taggers.MajorMinorExample | tagging/taggers/versions.py:32-36 | `python-M.m.p` becomes `python-M.m` |
| Taggers.PythonTagExample | tagging/taggers/versions.py:26-36 | `Python 3.11.4` gives `python-3.11.4` and `python-3.11` |
| Taggers.NotebookVersion | tagging/taggers/versions.py:39-42 | `notebook-` followed by the whole output |
| Taggers.LabVersion | tagging/taggers/versions.py:45-48 | `lab-` followed by the whole output |
| Taggers.HubVersion | tagging/taggers/versions.py:51-54 | `hub-` followed by the whole output |
| Taggers.RVersion | tagging/taggers/versions.py:57-60 | `r-` followed by token 2 |
| Taggers.JuliaVersion | tagging/taggers/versions.py:63-66 | `julia-` followed by token 2 |
| Taggers.JavaVersion | tagging/taggers/versions.py:99-102 | `java-` followed by token 1 |
| Taggers.RVersionOfWords | tagging/taggers/versions.py:57-60 | on space-joined words, the tag is `r-` followed by word 2 |
| Taggers.JuliaVersionOfWords | tagging/taggers/versions.py:63-66 | on space-joined words, the tag is `julia-` followed by word 2 |
| Taggers.JavaVersionOfWords | tagging/taggers/versions.py:99-102 | on space-joined words, the tag is `java-` followed by word 1 |
| Taggers.RTagExample | tagging/taggers/versions.py:57-60 | `R version 4.3.1 (2023-06-16)` gives `r-4.3.1` |
| Taggers.TensorflowVersion | tagging/taggers/versions.py:69-75 | `tensorflow-` followed by the pip version; it falls back to `tensorflow-cpu` only on AssertionError, and other errors propagate |
| Taggers.TensorflowTagFromEitherPackage | tagging/taggers/versions.py:69-75 | a successful tag is `tensorflow-` followed by the pip version of `tensorflow` or of `tensorflow-cpu` |
| Taggers.PytorchVersion | tagging/taggers/versions.py:78-81 | `pytorch-` followed by the pip version up to its first `+` |
| Taggers.PytorchLocalVersionDropped | tagging/taggers/versions.py:81 | `v+local` keeps `v`, and a version without `+` is kept whole |
| Taggers.SparkVersion | tagging/taggers/versions.py:84-96 | StopIteration exactly when no line starts with the banner prefix; otherwise `spark-` followed by the last single-space field of the first such line |
| Taggers.SparkFieldIsLineEnd | tagging/taggers/versions.py:96 | the last single-space field of `line version` is `version` |
| PyStr.FirstWithPrefix | tagging/taggers/versions.py:90-95 | the first line that a `startswith` filter keeps, or none when no line matches |
| ImagesHierarchy.WithParent | tagging/images_hierarchy.py:13-16 | a description given only its parent has no taggers |
| ImagesHierarchy.ImageNamesAreTheKeys | tagging/images_hierarchy.py:19-54 | the listed names are exactly the table's keys |
| ImagesHierarchy.LineageFrom | tagging/images_hierarchy.py:19-54 | the ancestor walk ends at an image without a parent, consecutive images are linked by their parent, every image is in the table, and none repeats; an unknown image or a cycle is an error |
| ImagesHierarchy.OneRoot | tagging/images_hierarchy.py:20-21 | `base-notebook` is the only image without a parent |
| ImagesHierarchy.ParentsExist | tagging/images_hierarchy.py:28-53 | every parent is a key of the table |
| ImagesHierarchy.DefaultTaggers | tagging/images_hierarchy.py:16-33 | `minimal-notebook` and `scipy-notebook` have no taggers of their own |
| ImagesHierarchy.ShaTaggerFirst | tagging/images_hierarchy.py:22-23 | the SHA tagger is the root's first tagger |
| ImagesHierarchy.Parents | tagging/images_hierarchy.py:28-53 | each image's parent as the table gives it |
| ImagesHierarchy.Lineage | tagging/images_hierarchy.py:19-54 | no contract of its own: the walk from an image up its parents; LineageFrom, LineageStep, WithinFourSteps and ShowLineage state what it yields |
| ImagesHierarchy.VisitedIrrelevant | tagging/images_hierarchy.py:19-54 | the walk does not depend on which images were visited before, as long as it meets none of them |
| ImagesHierarchy.LineageStep | tagging/images_hierarchy.py:19-54 | an image's lineage is the image followed by its parent's lineage |
| ImagesHierarchy.LineageAllspark | tagging/images_hierarchy.py:20-53 | `allspark-notebook` descends from `pyspark-notebook`, then `scipy-notebook`, `minimal-notebook` and `base-notebook` |
| ImagesHierarchy.WithinFourSteps | tagging/images_hierarchy.py:19-54 | from every image the root is reached within 4 steps, so the table has no cycle |
| ImagesHierarchy.ShowLineage | tagging/images_hierarchy.py:19-54 | the walk succeeds for every image, and its lineage is written out image by image |
| ImagesHierarchy.EffectiveTaggers | tagging/images_hierarchy.py:19-54 | no contract of its own: the taggers along a lineage, ancestors first; TaggersStep, TaggersOfEachImage and NoTaggerTwice state what it holds |
| ImagesHierarchy.TaggersOfEachImage | tagging/images_hierarchy.py:19-54 | the taggers each image gets from its ancestors and from itself, ancestors first |
| ImagesHierarchy.TaggersStep | tagging/images_hierarchy.py:19-54 | an image's taggers come after those of its parent's lineage |
| ImagesHierarchy.TaggersDistinct | tagging/images_hierarchy.py:19-54 | for each image, no tagger is listed twice along its lineage |
| ImagesHierarchy.NoTaggerTwice | tagging/images_hierarchy.py:19-54 | no tagger appears twice along any ancestor chain |
| MergeTags.Stripped | tagging/merge_tags.py:31 | each tag of a file loses every `<prefix>-` |
| MergeTags.StripPrefix | tagging/merge_tags.py:31 | no contract of its own: `tag.replace(f"{prefix}-", "")`; StripPrefixOfTag states its effect on a saved tag |
| MergeTags.PullRef | tagging/merge_tags.py:36 | no contract of its own: `tag.replace(":", f":{prefix}-")`; PullRefOfTag and PullRestoresSavedTag state its effect |
| MergeTags.FileTags | tagging/merge_tags.py:29-31 | a missing file raises FileNotFound naming it; otherwise its lines without the prefix |
| MergeTags.AllTags | tagging/merge_tags.py:26-31 | no contract of its own: the tags of every prefix file in order, or the first FileNotFound; AllTagsStep, AllTagsAppend, AllTagsLength and AllTagsFails state what it holds |
| MergeTags.AllTagsLength | tagging/merge_tags.py:31 | tags are not deduplicated: there are as many as lines read |
| MergeTags.AllTagsFails | tagging/merge_tags.py:28-31 | reading fails exactly when some prefix file is missing, naming the first one |
| MergeTags.AllTagsStep | tagging/merge_tags.py:28-31 | one more prefix file appends its stripped lines, or raises FileNotFound for it unless an earlier file is missing |
| MergeTags.AllTagsAppend | tagging/merge_tags.py:28-31 | `all_tags` is the concatenation of each file's tags in prefix order |
| MergeTags.StripPrefixOfTag | tagging/merge_tags.py:31 | `name:<p>-rest` becomes `name:rest` when no other `<p>-` and no other `:` occur |
| MergeTags.PullRefOfTag | tagging/merge_tags.py:36 | `name:rest` is pulled as `name:<p>-rest` |
| MergeTags.PullRestoresSavedTag | tagging/merge_tags.py:31-36 | stripping a saved line and rewriting it for its prefix gives the line back |
| MergeTags.PullsOf | tagging/merge_tags.py:35-36 | one pull per prefix, in prefix order, of the tag with every `:` rewritten |
| MergeTags.PullsForLayout | tagging/merge_tags.py:33-36 | exactly one pull per tag and prefix: the pull at `Cell(i, j, n)`, that is `i*n+j` for `n` prefixes, is tag `i` for prefix `j` |
| MergeTags.PullsForIsFlatten | tagging/merge_tags.py:33-36 | the pulls are the rows of per-tag pulls laid end to end, in tag order |
| MergeTags.ManifestArgs | tagging/merge_tags.py:38-45 | no contract of its own: the arguments of `docker manifest create`; ManifestJoinsPulls states them in terms of the pulls |
| MergeTags.ManifestJoinsPulls | tagging/merge_tags.py:38-45 | the manifest arguments are `manifest create --amend`, the tag, and its `x86_64` and `aarch64` pull references |
| MergeTags.ReadAllTags | tagging/merge_tags.py:26-31 | the first loop computes `all_tags` or the error of the first missing file |
| MergeTags.PullAll | tagging/merge_tags.py:33-45 | the pulls issued are a prefix of all pulls; every pull succeeds exactly when the loop completes; a failed pull stops the loop; one manifest is built per tag |
| MergeTags.Merge | tagging/merge_tags.py:17-45 | a missing file aborts before any pull; otherwise the pulls and manifests are those of `all_tags` |
| MergeTags.PullsForPrefixOf | tagging/merge_tags.py:33-36 | the pulls of the first tags come before those of later tags |
| GenerateMatrix.Platform | docs/using/recipe_code/generate_matrix.py:33 | the platform is `x86_64` or `aarch64` |
| GenerateMatrix.BaseImage | docs/using/recipe_code/generate_matrix.py:21-24 | no contract of its own: what follows `ARG BASE_IMAGE=` on the first line that has it, or IndexError; BaseImageIsFirstMatch states both |
| GenerateMatrix.BaseImageIsFirstMatch | docs/using/recipe_code/generate_matrix.py:21-24 | the base image is what follows the 15-character `ARG BASE_IMAGE=` on the first line having that prefix; IndexError exactly when no line has it |
| GenerateMatrix.ShortName | docs/using/recipe_code/generate_matrix.py:25-28 | the short name never contains `/` or `:` |
| GenerateMatrix.ShortNameOfPath | docs/using/recipe_code/generate_matrix.py:25 | `dirs/name` gives `name` |
| GenerateMatrix.ShortNameOfTaggedPath | docs/using/recipe_code/generate_matrix.py:26-28 | `dirs/name:tag` gives `""` |
| GenerateMatrix.ShortNameOfBareName | docs/using/recipe_code/generate_matrix.py:25-28 | a name without `/` is kept whole unless it holds a `:` |
| GenerateMatrix.EntryFor | docs/using/recipe_code/generate_matrix.py:21-36 | no contract of its own: the entry of one dockerfile and runner; EntryForOf states its fields and when it fails |
| GenerateMatrix.Entries | docs/using/recipe_code/generate_matrix.py:18-36 | no contract of its own: the entries of one dockerfile; FileEntriesOfRunners states that the loop over the runners yields them |
| GenerateMatrix.EntryForOf | docs/using/recipe_code/generate_matrix.py:21-36 | an entry exists exactly when the file has a base image; it holds the file name, runner, platform and short name |
| GenerateMatrix.Generate | docs/using/recipe_code/generate_matrix.py:11-37 | the nested loop with its `continue` computes the specified matrix |
| GenerateMatrix.GenerateFor | docs/using/recipe_code/generate_matrix.py:18-36 | the inner loop over the runners computes the specified entries of one dockerfile, or its IndexError |
| GenerateMatrix.Matrix | docs/using/recipe_code/generate_matrix.py:16-36 | no contract of its own: the whole matrix, or the first IndexError; MatrixStep, MatrixAppend, MatrixFails, MatrixError, MatrixSize and MatrixEntriesWellFormed state what it holds |
| GenerateMatrix.FileEntriesStep | docs/using/recipe_code/generate_matrix.py:18-36 | one more runner adds its entry, adds nothing when skipped, or raises the entry's error |
| GenerateMatrix.MatrixStep | docs/using/recipe_code/generate_matrix.py:16-36 | one more dockerfile appends its entries, unless it or an earlier file raises |
| GenerateMatrix.FileEntriesOfRunners | docs/using/recipe_code/generate_matrix.py:18-36 | each dockerfile yields an x86_64 entry, then an aarch64 entry unless it is `oracledb.dockerfile` |
| GenerateMatrix.MatrixAppend | docs/using/recipe_code/generate_matrix.py:16-36 | entries follow the file order, with the runners inside |
| GenerateMatrix.MatrixFails | docs/using/recipe_code/generate_matrix.py:16-24 | the matrix fails exactly when some dockerfile has no base image line |
| GenerateMatrix.MatrixError | docs/using/recipe_code/generate_matrix.py:22-24 | the only error the matrix raises is IndexError |
| GenerateMatrix.MatrixSize | docs/using/recipe_code/generate_matrix.py:15-20 | there are 2 entries per dockerfile, one fewer for each `oracledb.dockerfile` |
| GenerateMatrix.MatrixEntriesWellFormed | docs/using/recipe_code/generate_matrix.py:17-36 | every entry names one of the files and that file's short base image; its runner is not the skipped one; its platform is `x86_64` exactly for `ubuntu-24.04`; and its parent image has no `/` or `:` |
| PyStr.Split | tagging/taggers/versions.py:21 | `split(c)` yields at least one piece and no piece contains `c` |
| PyStr.JoinSplit | tagging/taggers/versions.py:21 | joining the pieces of `split(c)` with `c` gives back the string |
| PyStr.SplitJoin | tagging/taggers/versions.py:21 | splitting `c`-free pieces joined with `c` gives back the pieces |
| PyStr.SplitWs | tagging/taggers/versions.py:29 | `split()` yields non-empty pieces without whitespace |
| PyStr.SplitWsJoin | tagging/taggers/versions.py:29 | `split()` of space-joined words without whitespace gives back the words |
| PyStr.SplitLines | tests/utils/conda_package_helper.py:112 | `splitlines` yields pieces without line boundaries |
| PyStr.SplitLinesUnlines | tagging/merge_tags.py:30 | `splitlines` of newline-terminated lines gives back the lines |
| PyStr.RFind | docs/using/recipe_code/generate_matrix.py:25 | the last index of `c`, or -1 exactly when `c` is absent |
| PyStr.ReplaceAbsent | tagging/merge_tags.py:31 | replacing a pattern that does not occur changes nothing |
| PyStr.ReplaceCharIsSplitJoin | tagging/merge_tags.py:36 | replacing a character replaces every occurrence: it is splitting and joining with the replacement |
| OrderedDict.Dict.Put | tests/utils/conda_package_helper.py:93 | a new key goes last, an existing key keeps its place and gets the new value |
| OrderedDict.Dict.GetOr | tests/utils/conda_package_helper.py:130 | the stored value, or the default for a missing key |

## Left out

- Container and process I/O are parameters. The `exec_cmd` answers, the `docker pull` outcome and the tag files are oracles. `run_detached` is not represented, and `logging` is dropped.
- `json.loads` is replaced by the decoded `dependencies` list, with one constructor for a string entry and one for the pip dictionary. A document without `dependencies` (where `get` returns None) is not modelled.
- `Path.glob`, `sorted` and `read_text`: `GenerateMatrix.Generate` takes the dockerfiles as a sequence already in sorted order, each with its text.
- `json.dumps`, `print`, `argparse` and the `__main__` blocks are left out.
- `get_outdated_summary` is left out because it uses floating-point percentage formatting. `get_outdated_table` is left out because it is a wrapper over `tabulate`.
- `test_spark_r_nbconvert.py` is left out. It is a container run through `check_nbconvert`, which is not part of this model.
- The pytest fixtures and `pytest.fail` are left out. Only the failure condition is modelled; `TestOutcome.NotImportable` carries the failing packages.
- `check_import_python_package` and `check_import_r_package` are modelled only by the command they build. The import attempt is an oracle giving the outcome: the check returns, or it raises an exception. A failing `exec_cmd` is a raised AssertionError.
- `ALL_TAGS_PREFIXES` is a parameter of `MergeTags.Merge`. `SHATagger` and `HadoopVersionTagger` are enum members without a tag function, since their code is not part of this model.
- Digits and whitespace are ASCII and Python's whitespace set. `isdigit`, `\d` and `int()` accept only ASCII digits, and `[A-z]` is the ASCII range from `A` to `z`.
- CondaPackages.MinByKey: when several elements share the smallest key, the model picks any one of them, while Python's `min` picks the first in set iteration order. The same holds for CondaPackages.NewestByKey and the last in sorted order.
- CondaPackages.CondaPackageHelper.CheckUpdatablePackages: indexing the defaultdict `available[pkg]` inserts an empty set for a missing key. The model reads the empty set without inserting it into the cached map.
- The manifest command of `merge_tags` is built and never executed. `MergeTags.Merge` returns the argument lists and runs nothing.
