/** The import test of the requested packages: which packages are R or
    Python packages, the name each is imported under, and the loop that
    tries every import and collects the failures. */
module TestPackages {
  import opened Exceptions
  import opened PyStr

  /** `PACKAGE_MAPPING`: conda package name to the name it is imported by. */
  const PackageMapping: map<string, string> := map[
    // Python
    "beautifulsoup4" := "bs4",
    "jupyter-pluto-proxy" := "jupyter_pluto_proxy",
    "matplotlib-base" := "matplotlib",
    "pytables" := "tables",
    "scikit-image" := "skimage",
    "scikit-learn" := "sklearn",
    // R
    "randomforest" := "randomForest",
    "rcurl" := "RCurl",
    "rodbc" := "RODBC",
    "rsqlite" := "DBI"
  ]

  /** `EXCLUDED_PACKAGES`: requested names that are never import-tested. */
  const ExcludedPackages: seq<string> := [
    "bzip2",
    "ca-certificates",
    "conda-forge::blas=*",
    "grpcio-status",
    "grpcio",
    "hdf5",
    "jupyterhub-singleuser",
    "jupyterlab-git",
    "mamba",
    "notebook>",
    "openssl",
    "protobuf",
    "python",
    "r-irkernel",
    "unixodbc"
  ]

  /** `is_r_package` */
  predicate IsRPackage(package: string) {
    StartsWith(package, "r-")
  }

  /** `get_package_import_name`: drop the `r-` of an R package, then map. */
  function ImportName(package: string): (name: string)
    ensures IsRPackage(package) && package[2..] in PackageMapping ==> name == PackageMapping[package[2..]]
    ensures IsRPackage(package) && package[2..] !in PackageMapping ==> name == package[2..]
    ensures !IsRPackage(package) && package in PackageMapping ==> name == PackageMapping[package]
    ensures !IsRPackage(package) && package !in PackageMapping ==> name == package
  {
    var stripped := if IsRPackage(package) then package[2..] else package;
    if stripped in PackageMapping then PackageMapping[stripped] else stripped
  }

  /** An R package is imported under the name its Python-style spelling
      (without `r-`) would be imported under. */
  lemma ImportNameDropsRPrefix(name: string)
    requires !IsRPackage(name)
    ensures ImportName("r-" + name) == ImportName(name)
  {
    assert ("r-" + name)[2..] == name;
  }

  lemma ImportNameExamples()
    ensures ImportName("r-rcurl") == "RCurl"
    ensures ImportName("scikit-learn") == "sklearn"
    ensures ImportName("r-rsqlite") == "DBI"
    ensures ImportName("numpy") == "numpy"
    ensures ImportName("r-ggplot2") == "ggplot2"
  {
    assert "r-rcurl"[2..] == "rcurl";
    assert "r-rsqlite"[2..] == "rsqlite";
    assert "r-ggplot2"[2..] == "ggplot2";
    assert "numpy"[0] != 'r';
    assert "scikit-learn"[0] != 'r';
  }

  /** The requested names the R test imports, in requested order. */
  function RSelected(requested: seq<string>): (r: seq<string>)
    ensures forall p :: p in r <==> p in requested && IsRPackage(p) && p !in ExcludedPackages
    ensures |r| <= |requested|
    decreases |requested|
  {
    if requested == [] then []
    else
      var p := requested[|requested| - 1];
      RSelected(requested[..|requested| - 1])
        + (if IsRPackage(p) && p !in ExcludedPackages then [p] else [])
  }

  /** The requested names the Python test imports, in requested order. */
  function PythonSelected(requested: seq<string>): (r: seq<string>)
    ensures forall p :: p in r <==> p in requested && !IsRPackage(p) && p !in ExcludedPackages
    ensures |r| <= |requested|
    decreases |requested|
  {
    if requested == [] then []
    else
      var p := requested[|requested| - 1];
      PythonSelected(requested[..|requested| - 1])
        + (if !IsRPackage(p) && p !in ExcludedPackages then [p] else [])
  }

  /** The requested names neither test imports. */
  function ExcludedSelected(requested: seq<string>): seq<string>
    decreases |requested|
  {
    if requested == [] then []
    else
      var p := requested[|requested| - 1];
      ExcludedSelected(requested[..|requested| - 1])
        + (if p in ExcludedPackages then [p] else [])
  }

  /** `r_packages`: import names of the non-excluded R packages. */
  function RPackages(requested: seq<string>): (r: seq<string>)
    ensures |r| == |RSelected(requested)|
    ensures forall i :: 0 <= i < |r| ==> r[i] == ImportName(RSelected(requested)[i])
  {
    var sel := RSelected(requested);
    seq(|sel|, i requires 0 <= i < |sel| => ImportName(sel[i]))
  }

  /** `python_packages`: import names of the non-excluded other packages. */
  function PythonPackages(requested: seq<string>): (r: seq<string>)
    ensures |r| == |PythonSelected(requested)|
    ensures forall i :: 0 <= i < |r| ==> r[i] == ImportName(PythonSelected(requested)[i])
  {
    var sel := PythonSelected(requested);
    seq(|sel|, i requires 0 <= i < |sel| => ImportName(sel[i]))
  }

  /** Each requested, non-excluded package is in exactly one of the two
      selections, and an excluded one is in neither. */
  lemma ExactlyOneTest(requested: seq<string>, p: string)
    requires p in requested
    ensures p in ExcludedPackages ==> p !in RSelected(requested) && p !in PythonSelected(requested)
    ensures p !in ExcludedPackages ==> (p in RSelected(requested) <==> p !in PythonSelected(requested))
  {
  }

  /** Every requested name is counted once: selected for R, selected for
      Python, or excluded. */
  lemma {:induction false} SelectionsPartition(requested: seq<string>)
    ensures |RSelected(requested)| + |PythonSelected(requested)| + |ExcludedSelected(requested)| == |requested|
    decreases |requested|
  {
    if requested != [] {
      SelectionsPartition(requested[..|requested| - 1]);
    }
  }

  /** The selections are filters: selecting from a concatenation
      concatenates the selections, so the requested order is kept. */
  lemma {:induction false} RSelectedKeepsOrder(a: seq<string>, b: seq<string>)
    ensures RSelected(a + b) == RSelected(a) + RSelected(b)
    decreases |b|
  {
    if b == [] {
      assert a + b == a;
    } else {
      var b', x := b[..|b| - 1], b[|b| - 1];
      assert (a + b)[..|a + b| - 1] == a + b';
      assert (a + b)[|a + b| - 1] == x;
      var keep := if IsRPackage(x) && x !in ExcludedPackages then [x] else [];
      calc {
        RSelected(a + b);
        RSelected(a + b') + keep;
        { RSelectedKeepsOrder(a, b'); }
        RSelected(a) + RSelected(b') + keep;
        RSelected(a) + (RSelected(b') + keep);
      }
    }
  }

  lemma {:induction false} PythonSelectedKeepsOrder(a: seq<string>, b: seq<string>)
    ensures PythonSelected(a + b) == PythonSelected(a) + PythonSelected(b)
    decreases |b|
  {
    if b == [] {
      assert a + b == a;
    } else {
      var b', x := b[..|b| - 1], b[|b| - 1];
      assert (a + b)[..|a + b| - 1] == a + b';
      assert (a + b)[|a + b| - 1] == x;
      var keep := if !IsRPackage(x) && x !in ExcludedPackages then [x] else [];
      calc {
        PythonSelected(a + b);
        PythonSelected(a + b') + keep;
        { PythonSelectedKeepsOrder(a, b'); }
        PythonSelected(a) + PythonSelected(b') + keep;
        PythonSelected(a) + (PythonSelected(b') + keep);
      }
    }
  }

  /** `r-irkernel` and `python` are never import-tested, whatever is requested. */
  lemma ExcludedExamples(requested: seq<string>)
    ensures "r-irkernel" !in RSelected(requested) && "r-irkernel" !in PythonSelected(requested)
    ensures "python" !in RSelected(requested) && "python" !in PythonSelected(requested)
  {
    assert ExcludedPackages[13] == "r-irkernel";
    assert ExcludedPackages[12] == "python";
  }

  // ---------------------------------------------------------------------------
  // _check_import_packages

  /** How one import attempt in the container ends: the check function
      returns, or it raises. */
  datatype CheckOutcome = Imported | Raised(error: Error)

  /** The attempt raised AssertionError, which `except AssertionError` catches. */
  predicate Caught(o: CheckOutcome) {
    o.Raised? && o.error == AssertionError
  }

  /** The attempt raised an exception the loop does not catch. */
  predicate Escapes(o: CheckOutcome) {
    o.Raised? && o.error != AssertionError
  }

  /** How the test ends: it passes, `pytest.fail` lists the packages that
      could not be imported, or another exception escapes. */
  datatype TestOutcome = Passed | NotImportable(packages: seq<string>) | Aborted(error: Error)

  /** `check_import_python_package`: the command run in the container. */
  function PythonImportCommand(package: string): (cmd: string)
    ensures |cmd| == |package| + 19
    ensures cmd[18..|cmd| - 1] == package
    ensures cmd[..18] == "python -c \"import " && cmd[|cmd| - 1] == '"'
  {
    "python -c \"import " + package + "\""
  }

  /** `check_import_r_package`: the command run in the container. */
  function RImportCommand(package: string): (cmd: string)
    ensures |cmd| == |package| + 22
    ensures cmd[21..|cmd| - 1] == package
    ensures cmd[..21] == "R --slave -e library(" && cmd[|cmd| - 1] == ')'
  {
    "R --slave -e library(" + package + ")"
  }

  /** The failed imports in order, or the first exception that is not an
      AssertionError. */
  function Failures(packages: seq<string>, check: string -> CheckOutcome): (r: Result<seq<string>>)
    decreases |packages|
  {
    if packages == [] then Ok([])
    else
      var failed :- Failures(packages[..|packages| - 1], check);
      var p := packages[|packages| - 1];
      match check(p)
      case Imported => Ok(failed)
      case Raised(e) => if e == AssertionError then Ok(failed + [p]) else Err(e)
  }

  lemma {:induction false} FailuresErrorSticks(packages: seq<string>, n: nat, check: string -> CheckOutcome)
    requires n <= |packages| && Failures(packages[..n], check).Err?
    ensures Failures(packages, check) == Failures(packages[..n], check)
    decreases |packages| - n
  {
    if n < |packages| {
      assert packages[..n + 1][..n] == packages[..n];
      FailuresErrorSticks(packages, n + 1, check);
    } else {
      assert packages[..n] == packages;
    }
  }

  /** Exactly the packages whose import raised AssertionError are recorded. */
  lemma {:induction false} FailuresAreAssertionFailures(packages: seq<string>, check: string -> CheckOutcome)
    requires Failures(packages, check).Ok?
    ensures forall p :: p in Failures(packages, check).value <==> p in packages && Caught(check(p))
    decreases |packages|
  {
    if packages != [] {
      var init := packages[..|packages| - 1];
      FailuresAreAssertionFailures(init, check);
      assert packages == init + [packages[|packages| - 1]];
    }
  }

  /** Failures of a concatenation are the failures of each part, in order:
      a failure does not stop later packages from being tried. */
  lemma {:induction false} FailuresAppend(a: seq<string>, b: seq<string>, check: string -> CheckOutcome)
    requires Failures(a, check).Ok? && Failures(b, check).Ok?
    ensures Failures(a + b, check) == Ok(Failures(a, check).value + Failures(b, check).value)
    decreases |b|
  {
    if b == [] {
      assert a + b == a;
      assert Failures(a, check).value + [] == Failures(a, check).value;
    } else {
      var b', x := b[..|b| - 1], b[|b| - 1];
      assert (a + b)[..|a + b| - 1] == a + b';
      assert (a + b)[|a + b| - 1] == x;
      FailuresAppend(a, b', check);
      var fa, fb' := Failures(a, check).value, Failures(b', check).value;
      assert Failures(a + b', check) == Ok(fa + fb');
      if Caught(check(x)) {
        assert Failures(b, check) == Ok(fb' + [x]);
        assert Failures(a + b, check) == Ok(fa + fb' + [x]);
        assert fa + fb' + [x] == fa + (fb' + [x]);
      }
    }
  }

  /** The loop aborts exactly when some check raises an exception other than
      AssertionError. */
  lemma {:induction false} FailuresAbort(packages: seq<string>, check: string -> CheckOutcome)
    ensures Failures(packages, check).Err? <==> exists i :: 0 <= i < |packages| && Escapes(check(packages[i]))
    decreases |packages|
  {
    if packages != [] {
      var init := packages[..|packages| - 1];
      FailuresAbort(init, check);
      if exists i :: 0 <= i < |init| && Escapes(check(init[i])) {
        var i :| 0 <= i < |init| && Escapes(check(init[i]));
        assert packages[i] == init[i];
      }
      if exists i :: 0 <= i < |packages| && Escapes(check(packages[i])) {
        var i :| 0 <= i < |packages| && Escapes(check(packages[i]));
        if i < |init| {
          assert init[i] == packages[i];
        }
      }
    }
  }

  /** The outcome of `_check_import_packages`. */
  function ImportTest(packages: seq<string>, check: string -> CheckOutcome): (t: TestOutcome)
    ensures t.Passed? <==> Failures(packages, check) == Ok([])
    ensures t.NotImportable? <==> Failures(packages, check).Ok? && Failures(packages, check).value != []
    ensures t.NotImportable? ==> t.packages == Failures(packages, check).value
    ensures t.Aborted? <==> Failures(packages, check).Err?
  {
    match Failures(packages, check)
    case Err(e) => Aborted(e)
    case Ok(failed) => if failed == [] then Passed else NotImportable(failed)
  }

  /** An AssertionError is caught: the package is reported as not importable
      and the loop goes on to the next package. */
  lemma AssertionErrorRecorded(p: string, q: string, check: string -> CheckOutcome)
    requires check(p) == Raised(AssertionError) && check(q) == Imported
    ensures ImportTest([p], check) == NotImportable([p])
    ensures ImportTest([p, q], check) == NotImportable([p])
  {
    assert [p][..0] == [];
    assert Failures([], check) == Ok([]);
    assert Failures([p], check) == Ok([] + [p]);
    assert [q][..0] == [];
    assert Failures([q], check) == Ok([]);
    FailuresAppend([p], [q], check);
    assert [p] + [q] == [p, q] && [p] + [] == [p];
  }

  /** The number of packages tried: all of them, or up to and including the
      one whose check raised an escaping exception. */
  function Tried(packages: seq<string>, check: string -> CheckOutcome): (n: nat)
    ensures n <= |packages|
    ensures forall i :: 0 <= i < n - 1 ==> !Escapes(check(packages[i]))
    ensures n < |packages| ==> n > 0 && Escapes(check(packages[n - 1]))
    ensures n == |packages| && n > 0 && !Escapes(check(packages[n - 1])) ==>
              forall i :: 0 <= i < n ==> !Escapes(check(packages[i]))
    decreases |packages|
  {
    if packages == [] then 0
    else if Escapes(check(packages[0])) then 1
    else 1 + Tried(packages[1..], check)
  }

  /** `_check_import_packages`: tries the packages in order, recording each
      AssertionError and going on; another exception ends the loop. */
  method CheckImportPackages(packages: seq<string>, check: string -> CheckOutcome)
    returns (outcome: TestOutcome, tried: seq<string>)
    ensures outcome == ImportTest(packages, check)
    ensures tried == packages[..Tried(packages, check)]
  {
    var failedImports: seq<string> := [];
    tried := [];
    var i := 0;
    while i < |packages|
      invariant 0 <= i <= |packages|
      invariant Failures(packages[..i], check) == Ok(failedImports)
      invariant tried == packages[..i]
      invariant forall j :: 0 <= j < i ==> !Escapes(check(packages[j]))
    {
      var package := packages[i];
      assert packages[..i + 1][..i] == packages[..i];
      assert packages[..i + 1][i] == package;
      tried := tried + [package];
      var result := check(package);
      match result {
        case Imported =>
        case Raised(e) =>
          if e == AssertionError {
            failedImports := failedImports + [package];
          } else {
            FailuresErrorSticks(packages, i + 1, check);
            TriedStopsAt(packages, i, check);
            return Aborted(e), tried;
          }
      }
      i := i + 1;
    }
    assert packages[..i] == packages;
    TriedAll(packages, check);
    outcome := if failedImports == [] then Passed else NotImportable(failedImports);
  }

  lemma {:induction false} TriedStopsAt(packages: seq<string>, i: nat, check: string -> CheckOutcome)
    requires i < |packages| && Escapes(check(packages[i]))
    requires forall j :: 0 <= j < i ==> !Escapes(check(packages[j]))
    ensures Tried(packages, check) == i + 1
    decreases i
  {
    if i > 0 {
      TriedStopsAt(packages[1..], i - 1, check);
    }
  }

  lemma {:induction false} TriedAll(packages: seq<string>, check: string -> CheckOutcome)
    requires forall j :: 0 <= j < |packages| ==> !Escapes(check(packages[j]))
    ensures Tried(packages, check) == |packages|
    decreases |packages|
  {
    if packages != [] {
      TriedAll(packages[1..], check);
    }
  }

  /** `test_r_packages`: the R import test over the requested names, where
      `exec` is the outcome of running a command in the container. */
  method TestRPackages(requested: seq<string>, exec: string -> CheckOutcome)
    returns (outcome: TestOutcome, tried: seq<string>)
    ensures outcome == ImportTest(RPackages(requested), name => exec(RImportCommand(name)))
    ensures tried == RPackages(requested)[..Tried(RPackages(requested), name => exec(RImportCommand(name)))]
  {
    outcome, tried := CheckImportPackages(RPackages(requested), name => exec(RImportCommand(name)));
  }

  /** `test_python_packages`: the Python import test over the requested names. */
  method TestPythonPackages(requested: seq<string>, exec: string -> CheckOutcome)
    returns (outcome: TestOutcome, tried: seq<string>)
    ensures outcome == ImportTest(PythonPackages(requested), name => exec(PythonImportCommand(name)))
    ensures tried == PythonPackages(requested)[..Tried(PythonPackages(requested), name => exec(PythonImportCommand(name)))]
  {
    outcome, tried := CheckImportPackages(PythonPackages(requested), name => exec(PythonImportCommand(name)));
  }
}
