/** The taggers: each asks the container for a program's or a pip package's
    version and turns the reply into one tag fragment such as
    `python-3.11.4` or `spark-3.5.0`. */
module Taggers {
  import opened Exceptions
  import opened PyStr

  /** The tagger classes, by name (the SHA and Hadoop taggers are only
      named here). */
  datatype Tagger =
    | SHATagger
    | PythonVersionTagger
    | PythonMajorMinorVersionTagger
    | JupyterNotebookVersionTagger
    | JupyterLabVersionTagger
    | JupyterHubVersionTagger
    | RVersionTagger
    | JuliaVersionTagger
    | TensorflowVersionTagger
    | PytorchVersionTagger
    | SparkVersionTagger
    | HadoopVersionTagger
    | JavaVersionTagger

  /** Running a command in the container: its output, or the exception
      `exec_cmd` raises. */
  type Exec = string -> Result<string>

  /** `_get_program_version` */
  function ProgramVersion(exec: Exec, program: string): Result<string> {
    exec(program + " --version")
  }

  const PipVersionPrefix := "Version: "

  /** The parsing half of `_get_pip_package_version`: the second
      `\n`-separated line of `pip show`, without its `Version: ` prefix. */
  function PipShowVersion(info: string): (r: Result<string>)
    ensures r == Err(IndexError) <==> |Split(info, '\n')| < 2
    ensures r == Err(AssertionError) <==>
              |Split(info, '\n')| >= 2 && !StartsWith(Split(info, '\n')[1], PipVersionPrefix)
    ensures r.Err? ==> r.error == IndexError || r.error == AssertionError
    ensures r.Ok? ==> Split(info, '\n')[1] == PipVersionPrefix + r.value
  {
    var lines := Split(info, '\n');
    if |lines| < 2 then Err(IndexError)
    else if !StartsWith(lines[1], PipVersionPrefix) then Err(AssertionError)
    else
      assert lines[1] == lines[1][..9] + lines[1][9..];
      Ok(lines[1][|PipVersionPrefix|..])
  }

  /** A `pip show` reply whose second line is `Version: v` gives `v`. */
  lemma PipShowVersionOfLines(first: string, v: string, rest: string)
    requires '\n' !in first && '\n' !in v
    ensures PipShowVersion(first + "\n" + PipVersionPrefix + v + "\n" + rest) == Ok(v)
  {
    var line := PipVersionPrefix + v;
    assert forall i :: 0 <= i < |PipVersionPrefix| ==> PipVersionPrefix[i] != '\n';
    assert '\n' !in line;
    SplitCons(line, '\n', rest);
    SplitCons(first, '\n', line + "\n" + rest);
    assert first + "\n" + PipVersionPrefix + v + "\n" + rest == first + ['\n'] + (line + ['\n'] + rest);
    assert line[..9] == PipVersionPrefix;
    assert line[9..] == v;
  }

  /** `_get_pip_package_version` */
  function PipPackageVersion(exec: Exec, package: string): Result<string> {
    var info :- exec("pip show " + package);
    PipShowVersion(info)
  }

  /** `prefix + output.split()[k]`, or IndexError when there are not enough
      whitespace-separated words. */
  function WordTag(prefix: string, output: string, k: nat): (r: Result<string>)
    ensures r.Ok? <==> k < |SplitWs(output)|
    ensures r.Err? ==> r.error == IndexError
    ensures r.Ok? ==> r.value == prefix + SplitWs(output)[k]
  {
    var words := SplitWs(output);
    if k < |words| then Ok(prefix + words[k]) else Err(IndexError)
  }

  /** An output made of words separated by single spaces is tagged with its
      `k`-th word. */
  lemma WordTagOfWords(prefix: string, words: seq<string>, k: nat)
    requires k < |words|
    requires forall j :: 0 <= j < |words| ==> words[j] != []
    requires forall j, i :: 0 <= j < |words| && 0 <= i < |words[j]| ==> !IsSpace(words[j][i])
    ensures WordTag(prefix, Join(words, " "), k) == Ok(prefix + words[k])
  {
    SplitWsJoin(words);
  }

  /** Printable ASCII characters other than the space are not whitespace. */
  lemma PrintableIsNotSpace(w: string)
    requires forall i :: 0 <= i < |w| ==> '!' <= w[i] <= '~'
    ensures forall i :: 0 <= i < |w| ==> !IsSpace(w[i])
  {
  }

  /** `PythonVersionTagger.tag_value`: `python-` and the second word of
      `python --version`. */
  function PythonVersion(exec: Exec): (r: Result<string>)
    ensures ProgramVersion(exec, "python").Err? ==> r == ProgramVersion(exec, "python")
    ensures ProgramVersion(exec, "python").Ok? ==> r == WordTag("python-", ProgramVersion(exec, "python").value, 1)
  {
    var out :- ProgramVersion(exec, "python");
    WordTag("python-", out, 1)
  }

  /** `s[:s.rfind(".")]`: the text before the last `.`; when there is none,
      rfind's -1 drops only the last character. */
  function CutAtLastDot(s: string): (r: string)
    ensures StartsWith(s, r)
    ensures '.' in s ==> |r| < |s| && s[|r|] == '.' && '.' !in s[|r| + 1..]
    ensures '.' !in s && s != [] ==> |r| == |s| - 1
    ensures s == [] ==> r == []
  {
    var i := RFind(s, '.');
    if i >= 0 then s[..i] else if s == [] then [] else s[..|s| - 1]
  }

  /** `PythonMajorMinorVersionTagger.tag_value`: the Python tag cut before
      its last `.`. */
  function PythonMajorMinorVersion(exec: Exec): (r: Result<string>)
    ensures r.Err? <==> PythonVersion(exec).Err?
    ensures r.Ok? ==> StartsWith(PythonVersion(exec).value, r.value)
    ensures r.Ok? ==> r.value == CutAtLastDot(PythonVersion(exec).value)
  {
    var full :- PythonVersion(exec);
    Ok(CutAtLastDot(full))
  }

  /** `python-3.11.4` becomes `python-3.11`. */
  lemma MajorMinorExample(major: string, minor: string, patch: string)
    requires '.' !in patch
    ensures CutAtLastDot("python-" + major + "." + minor + "." + patch) == "python-" + major + "." + minor
  {
    var s := "python-" + major + "." + minor + "." + patch;
    var k := |"python-" + major + "." + minor|;
    assert s[k] == '.';
    assert s[k + 1..] == patch;
    assert s[..k] == "python-" + major + "." + minor;
  }

  lemma PythonVersionOfWords(exec: Exec, words: seq<string>)
    requires 1 < |words|
    requires forall j :: 0 <= j < |words| ==> words[j] != []
    requires forall j, i :: 0 <= j < |words| && 0 <= i < |words[j]| ==> !IsSpace(words[j][i])
    requires exec("python --version") == Ok(Join(words, " "))
    ensures PythonVersion(exec) == Ok("python-" + words[1])
  {
    assert "python" + " --version" == "python --version";
    WordTagOfWords("python-", words, 1);
  }

  /** `Python 3.11.4` is tagged `python-3.11.4`, cut to `python-3.11`. */
  lemma PythonTagExample(exec: Exec)
    requires exec("python --version") == Ok(Join(["Python", "3.11.4"], " "))
    ensures PythonVersion(exec) == Ok("python-3.11.4")
    ensures PythonMajorMinorVersion(exec) == Ok("python-3.11")
  {
    var words := ["Python", "3.11.4"];
    PrintableIsNotSpace(words[0]);
    PrintableIsNotSpace(words[1]);
    PythonVersionOfWords(exec, words);
    assert "python-" + words[1] == "python-3.11.4";
    MajorMinorExample("3", "11", "4");
    assert "python-" + "3" + "." + "11" + "." + "4" == "python-3.11.4";
    assert "python-" + "3" + "." + "11" == "python-3.11";
  }

  /** `JupyterNotebookVersionTagger.tag_value` */
  function NotebookVersion(exec: Exec): (r: Result<string>)
    ensures r.Err? <==> ProgramVersion(exec, "jupyter-notebook").Err?
    ensures r.Err? ==> r.error == ProgramVersion(exec, "jupyter-notebook").error
    ensures r.Ok? ==> StartsWith(r.value, "notebook-") && r.value[9..] == ProgramVersion(exec, "jupyter-notebook").value
  {
    var out :- ProgramVersion(exec, "jupyter-notebook");
    Ok("notebook-" + out)
  }

  /** `JupyterLabVersionTagger.tag_value` */
  function LabVersion(exec: Exec): (r: Result<string>)
    ensures r.Err? <==> ProgramVersion(exec, "jupyter-lab").Err?
    ensures r.Err? ==> r.error == ProgramVersion(exec, "jupyter-lab").error
    ensures r.Ok? ==> StartsWith(r.value, "lab-") && r.value[4..] == ProgramVersion(exec, "jupyter-lab").value
  {
    var out :- ProgramVersion(exec, "jupyter-lab");
    Ok("lab-" + out)
  }

  /** `JupyterHubVersionTagger.tag_value` */
  function HubVersion(exec: Exec): (r: Result<string>)
    ensures r.Err? <==> ProgramVersion(exec, "jupyterhub").Err?
    ensures r.Err? ==> r.error == ProgramVersion(exec, "jupyterhub").error
    ensures r.Ok? ==> StartsWith(r.value, "hub-") && r.value[4..] == ProgramVersion(exec, "jupyterhub").value
  {
    var out :- ProgramVersion(exec, "jupyterhub");
    Ok("hub-" + out)
  }

  /** `RVersionTagger.tag_value`: `r-` and the third word of `R --version`. */
  function RVersion(exec: Exec): (r: Result<string>)
    ensures ProgramVersion(exec, "R").Err? ==> r == ProgramVersion(exec, "R")
    ensures ProgramVersion(exec, "R").Ok? ==> r == WordTag("r-", ProgramVersion(exec, "R").value, 2)
  {
    var out :- ProgramVersion(exec, "R");
    WordTag("r-", out, 2)
  }

  /** `JuliaVersionTagger.tag_value`: `julia-` and the third word. */
  function JuliaVersion(exec: Exec): (r: Result<string>)
    ensures ProgramVersion(exec, "julia").Err? ==> r == ProgramVersion(exec, "julia")
    ensures ProgramVersion(exec, "julia").Ok? ==> r == WordTag("julia-", ProgramVersion(exec, "julia").value, 2)
  {
    var out :- ProgramVersion(exec, "julia");
    WordTag("julia-", out, 2)
  }

  /** `JavaVersionTagger.tag_value`: `java-` and the second word. */
  function JavaVersion(exec: Exec): (r: Result<string>)
    ensures ProgramVersion(exec, "java").Err? ==> r == ProgramVersion(exec, "java")
    ensures ProgramVersion(exec, "java").Ok? ==> r == WordTag("java-", ProgramVersion(exec, "java").value, 1)
  {
    var out :- ProgramVersion(exec, "java");
    WordTag("java-", out, 1)
  }

  lemma RVersionOfWords(exec: Exec, words: seq<string>)
    requires 2 < |words|
    requires forall j :: 0 <= j < |words| ==> words[j] != []
    requires forall j, i :: 0 <= j < |words| && 0 <= i < |words[j]| ==> !IsSpace(words[j][i])
    requires exec("R --version") == Ok(Join(words, " "))
    ensures RVersion(exec) == Ok("r-" + words[2])
  {
    assert "R" + " --version" == "R --version";
    WordTagOfWords("r-", words, 2);
  }

  lemma JuliaVersionOfWords(exec: Exec, words: seq<string>)
    requires 2 < |words|
    requires forall j :: 0 <= j < |words| ==> words[j] != []
    requires forall j, i :: 0 <= j < |words| && 0 <= i < |words[j]| ==> !IsSpace(words[j][i])
    requires exec("julia --version") == Ok(Join(words, " "))
    ensures JuliaVersion(exec) == Ok("julia-" + words[2])
  {
    assert "julia" + " --version" == "julia --version";
    WordTagOfWords("julia-", words, 2);
  }

  lemma JavaVersionOfWords(exec: Exec, words: seq<string>)
    requires 1 < |words|
    requires forall j :: 0 <= j < |words| ==> words[j] != []
    requires forall j, i :: 0 <= j < |words| && 0 <= i < |words[j]| ==> !IsSpace(words[j][i])
    requires exec("java --version") == Ok(Join(words, " "))
    ensures JavaVersion(exec) == Ok("java-" + words[1])
  {
    assert "java" + " --version" == "java --version";
    WordTagOfWords("java-", words, 1);
  }

  /** `R version 4.3.1 (2023-06-16)` is tagged `r-4.3.1`. */
  lemma RTagExample(exec: Exec)
    requires exec("R --version") == Ok(Join(["R", "version", "4.3.1", "(2023-06-16)"], " "))
    ensures RVersion(exec) == Ok("r-4.3.1")
  {
    var words := ["R", "version", "4.3.1", "(2023-06-16)"];
    PrintableIsNotSpace(words[0]);
    PrintableIsNotSpace(words[1]);
    PrintableIsNotSpace(words[2]);
    PrintableIsNotSpace(words[3]);
    RVersionOfWords(exec, words);
    assert "r-" + words[2] == "r-4.3.1";
  }

  /** `TensorflowVersionTagger.tag_value`: the `tensorflow` pip version, or,
      only when that lookup fails an assertion, the `tensorflow-cpu` one. */
  function TensorflowVersion(exec: Exec): (r: Result<string>)
    ensures PipPackageVersion(exec, "tensorflow").Ok? ==>
              r == Ok("tensorflow-" + PipPackageVersion(exec, "tensorflow").value)
    ensures PipPackageVersion(exec, "tensorflow") == Err(AssertionError) ==>
              r == (var v :- PipPackageVersion(exec, "tensorflow-cpu"); Ok("tensorflow-" + v))
    ensures PipPackageVersion(exec, "tensorflow").Err? && PipPackageVersion(exec, "tensorflow").error != AssertionError ==>
              r == Err(PipPackageVersion(exec, "tensorflow").error)
  {
    match PipPackageVersion(exec, "tensorflow")
    case Ok(v) => Ok("tensorflow-" + v)
    case Err(AssertionError) =>
      var v :- PipPackageVersion(exec, "tensorflow-cpu");
      Ok("tensorflow-" + v)
    case Err(e) => Err(e)
  }

  /** Whichever lookup it came from, a TensorFlow tag is `tensorflow-` and a
      pip version. */
  lemma TensorflowTagFromEitherPackage(exec: Exec)
    requires TensorflowVersion(exec).Ok?
    ensures exists package :: package in {"tensorflow", "tensorflow-cpu"} &&
              PipPackageVersion(exec, package).Ok? &&
              TensorflowVersion(exec).value == "tensorflow-" + PipPackageVersion(exec, package).value
  {
    if PipPackageVersion(exec, "tensorflow").Ok? {
      assert "tensorflow" in {"tensorflow", "tensorflow-cpu"};
    } else {
      assert "tensorflow-cpu" in {"tensorflow", "tensorflow-cpu"};
    }
  }

  /** `PytorchVersionTagger.tag_value`: the `torch` pip version up to its
      first `+`. */
  function PytorchVersion(exec: Exec): (r: Result<string>)
    ensures r.Err? <==> PipPackageVersion(exec, "torch").Err?
    ensures r.Err? ==> r.error == PipPackageVersion(exec, "torch").error
    ensures r.Ok? ==> r.value == "pytorch-" + Split(PipPackageVersion(exec, "torch").value, '+')[0]
  {
    var v :- PipPackageVersion(exec, "torch");
    Ok("pytorch-" + Split(v, '+')[0])
  }

  /** The PyTorch version is the pip version's text before the first `+`
      (all of it when there is no `+`). */
  lemma PytorchLocalVersionDropped(v: string, local: string)
    requires '+' !in v
    ensures Split(v + "+" + local, '+')[0] == v
    ensures Split(v, '+')[0] == v
  {
    SplitFirstPiece(v + "+" + local, '+');
    SplitFirstPiece(v, '+');
    var piece := Split(v + "+" + local, '+')[0];
    var s := v + "+" + local;
    assert s[|v|] == '+';
  }

  const SparkVersionLinePrefix := @"   /___/ .__/\_,_/_/ /_/\_\   version"

  /** `SparkVersionTagger.tag_value`: `spark-` and the last single-space
      separated field of the first line that starts with the banner's
      version prefix; StopIteration when no line does. */
  function SparkVersion(exec: Exec): (r: Result<string>)
    ensures ProgramVersion(exec, "spark-submit").Err? ==> r == ProgramVersion(exec, "spark-submit")
    ensures ProgramVersion(exec, "spark-submit").Ok? ==>
              (r == Err(StopIteration) <==>
                 FirstWithPrefix(Split(ProgramVersion(exec, "spark-submit").value, '\n'), SparkVersionLinePrefix).None?)
    ensures r.Ok? ==>
              var lines := Split(ProgramVersion(exec, "spark-submit").value, '\n');
              exists i :: 0 <= i < |lines| && StartsWith(lines[i], SparkVersionLinePrefix)
                && (forall j :: 0 <= j < i ==> !StartsWith(lines[j], SparkVersionLinePrefix))
                && r.value == "spark-" + Split(lines[i], ' ')[|Split(lines[i], ' ')| - 1]
  {
    var out :- ProgramVersion(exec, "spark-submit");
    var lines := Split(out, '\n');
    match FirstWithPrefix(lines, SparkVersionLinePrefix)
    case None => Err(StopIteration)
    case Some(i) =>
      var fields := Split(lines[i], ' ');
      Ok("spark-" + fields[|fields| - 1])
  }

  /** The Spark version is what follows the last space of its line. */
  lemma SparkFieldIsLineEnd(line: string, version: string)
    requires ' ' !in version
    ensures var fields := Split(line + " " + version, ' '); fields[|fields| - 1] == version
  {
    var s := line + " " + version;
    SplitLastPiece(s, ' ');
    var fields := Split(s, ' ');
    var last := fields[|fields| - 1];
    assert s[|s| - |version| - 1] == ' ';
    assert s[|s| - |version|..] == version;
  }
}
