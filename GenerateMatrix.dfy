/** The build matrix of the recipe dockerfiles: one entry per dockerfile and
    runner, naming the platform and the short name of the parent image. */
module GenerateMatrix {
  import opened Exceptions
  import opened PyStr
  import opened SeqFacts

  /** A recipe dockerfile: its file name and its text. */
  datatype Dockerfile = Dockerfile(name: string, text: string)

  /** One matrix entry: `dockerfile`, `runs-on`, `platform`, `parent-image`. */
  datatype Entry = Entry(dockerfile: string, runsOn: string, platform: string, parentImage: string)

  const X86Runner := "ubuntu-24.04"
  const ArmRunner := "ubuntu-22.04-arm"

  /** `runs_on`, in loop order. */
  const RunsOn: seq<string> := [X86Runner, ArmRunner]

  const OracleDockerfile := "oracledb.dockerfile"
  const BaseImagePrefix := "ARG BASE_IMAGE="

  /** The one combination the loop skips. */
  predicate Skipped(name: string, run: string) {
    name == OracleDockerfile && run == ArmRunner
  }

  /** `"x86_64" if run == "ubuntu-24.04" else "aarch64"` */
  function Platform(run: string): (r: string)
    ensures r == "x86_64" || r == "aarch64"
  {
    if run == X86Runner then "x86_64" else "aarch64"
  }

  /** The base image: the first `ARG BASE_IMAGE=` line without its first 15
      characters; IndexError when no line has that prefix. */
  function BaseImage(lines: seq<string>): Result<string> {
    match FirstWithPrefix(lines, BaseImagePrefix)
    case None => Err(IndexError)
    case Some(k) => Ok(lines[k][15..])
  }

  /** The base image is what follows the prefix on the first line that has
      it (the prefix is exactly 15 characters long), and IndexError is
      raised exactly when no line has it. */
  lemma BaseImageIsFirstMatch(lines: seq<string>)
    ensures BaseImage(lines).Err? <==> forall j :: 0 <= j < |lines| ==> !StartsWith(lines[j], BaseImagePrefix)
    ensures BaseImage(lines).Err? ==> BaseImage(lines).error == IndexError
    ensures BaseImage(lines).Ok? ==>
              exists k :: 0 <= k < |lines|
                && (forall j :: 0 <= j < k ==> !StartsWith(lines[j], BaseImagePrefix))
                && lines[k] == BaseImagePrefix + BaseImage(lines).value
  {
    match FirstWithPrefix(lines, BaseImagePrefix)
    case None =>
    case Some(k) =>
      assert |BaseImagePrefix| == 15;
      assert lines[k] == BaseImagePrefix + lines[k][15..];
  }

  /** `base_image_short`: the text after the last `/`, or `""` when that
      text holds a tag (a `:`). */
  function ShortName(base: string): (r: string)
    ensures '/' !in r && ':' !in r
  {
    var short := base[RFind(base, '/') + 1..];
    if ':' in short then "" else short
  }

  /** The last `c` of `a + [c] + b` is the one after `a` when `b` has none. */
  lemma {:induction false} RFindAfter(a: string, c: char, b: string)
    requires c !in b
    ensures RFind(a + [c] + b, c) == |a|
    decreases |b|
  {
    var s := a + [c] + b;
    if b != [] {
      var b' := b[..|b| - 1];
      assert s[..|s| - 1] == a + [c] + b';
      assert s[|s| - 1] == b[|b| - 1];
      RFindAfter(a, c, b');
    }
  }

  /** An image path `dirs/name` without a tag gives `name`. */
  lemma ShortNameOfPath(dirs: string, name: string)
    requires '/' !in name && ':' !in name
    ensures ShortName(dirs + "/" + name) == name
  {
    RFindAfter(dirs, '/', name);
    assert (dirs + "/" + name)[|dirs| + 1..] == name;
  }

  /** An image path `dirs/name:tag` gives `""`. */
  lemma ShortNameOfTaggedPath(dirs: string, name: string, tag: string)
    requires '/' !in name && '/' !in tag
    ensures ShortName(dirs + "/" + name + ":" + tag) == ""
  {
    var rest := name + ":" + tag;
    assert dirs + "/" + name + ":" + tag == dirs + "/" + rest;
    RFindAfter(dirs, '/', rest);
    assert (dirs + "/" + rest)[|dirs| + 1..] == rest;
    assert rest[|name|] == ':';
  }

  /** An image name without any `/` is its own short name unless tagged. */
  lemma ShortNameOfBareName(name: string)
    requires '/' !in name
    ensures ShortName(name) == if ':' in name then "" else name
  {
    assert name[0..] == name;
  }

  /** The entry for one dockerfile and runner. */
  function EntryFor(f: Dockerfile, run: string): Result<Entry> {
    var base :- BaseImage(SplitLines(f.text));
    Ok(Entry(f.name, run, Platform(run), ShortName(base)))
  }

  /** Whether some line of the dockerfile declares the base image. */
  predicate HasBaseImage(f: Dockerfile) {
    BaseImage(SplitLines(f.text)).Ok?
  }

  /** An entry can be made exactly when the dockerfile has a base image. */
  lemma EntryForOf(f: Dockerfile, run: string)
    ensures EntryFor(f, run).Err? <==> !HasBaseImage(f)
    ensures EntryFor(f, run).Err? ==> EntryFor(f, run).error == IndexError
    ensures EntryFor(f, run).Ok? ==>
              EntryFor(f, run).value == Entry(f.name, run, Platform(run), ShortName(BaseImage(SplitLines(f.text)).value))
  {
  }

  /** Whether an entry can be made does not depend on the runner. */
  lemma EntryForAnyRunner(f: Dockerfile, run: string, run': string)
    ensures EntryFor(f, run).Ok? <==> EntryFor(f, run').Ok?
    ensures EntryFor(f, run).Err? ==> EntryFor(f, run).error == IndexError
  {
  }

  /** The entries of one dockerfile for the runners `runs`, in order. */
  function FileEntries(f: Dockerfile, runs: seq<string>): Result<seq<Entry>>
    decreases |runs|
  {
    if runs == [] then Ok([])
    else
      var entries :- FileEntries(f, runs[..|runs| - 1]);
      var run := runs[|runs| - 1];
      if Skipped(f.name, run) then Ok(entries)
      else
        var e :- EntryFor(f, run);
        Ok(entries + [e])
  }

  /** The entries of one dockerfile, as the inner loop over `runs_on`
      produces them (see `FileEntriesOfRunners`): an x86_64 entry, then an
      aarch64 entry unless it is the oracledb dockerfile. */
  function Entries(f: Dockerfile): Result<seq<Entry>> {
    var base :- BaseImage(SplitLines(f.text));
    var x86 := Entry(f.name, X86Runner, Platform(X86Runner), ShortName(base));
    var arm := Entry(f.name, ArmRunner, Platform(ArmRunner), ShortName(base));
    Ok(if f.name == OracleDockerfile then [x86] else [x86, arm])
  }

  /** The whole matrix: dockerfiles in the given order, runners inside. */
  function Matrix(files: seq<Dockerfile>): Result<seq<Entry>>
    decreases |files|
  {
    if files == [] then Ok([])
    else
      var entries :- Matrix(files[..|files| - 1]);
      var more :- Entries(files[|files| - 1]);
      Ok(entries + more)
  }

  /** `generate_matrix`, over the dockerfiles in sorted order. */
  method Generate(files: seq<Dockerfile>) returns (r: Result<seq<Entry>>)
    ensures r == Matrix(files)
  {
    var matrix: seq<Entry> := [];
    var i := 0;
    while i < |files|
      invariant 0 <= i <= |files|
      invariant Matrix(files[..i]) == Ok(matrix)
    {
      TakeNext(files, i);
      MatrixStep(files[..i], files[i]);
      var entries := GenerateFor(files[i]);
      FileEntriesOfRunners(files[i]);
      if entries.Err? {
        MatrixErrorSticks(files, i + 1);
        return Err(entries.error);
      }
      matrix := matrix + entries.value;
      i := i + 1;
    }
    TakeAll(files);
    return Ok(matrix);
  }

  /** The inner loop of `generate_matrix` for one dockerfile: one entry per
      runner, skipping the arm runner for the oracledb dockerfile. */
  method GenerateFor(dockerfile: Dockerfile) returns (r: Result<seq<Entry>>)
    ensures r == FileEntries(dockerfile, RunsOn)
  {
    var entries: seq<Entry> := [];
    var j := 0;
    while j < |RunsOn|
      invariant 0 <= j <= |RunsOn|
      invariant FileEntries(dockerfile, RunsOn[..j]) == Ok(entries)
    {
      var run := RunsOn[j];
      TakeNext(RunsOn, j);
      FileEntriesStep(dockerfile, RunsOn[..j], run);
      if Skipped(dockerfile.name, run) {
        j := j + 1;
        continue;
      }
      var base := BaseImage(SplitLines(dockerfile.text));
      if base.Err? {
        FileEntriesErrorSticks(dockerfile, RunsOn, j + 1);
        return Err(base.error);
      }
      entries := entries + [Entry(dockerfile.name, run, Platform(run), ShortName(base.value))];
      j := j + 1;
    }
    TakeAll(RunsOn);
    return Ok(entries);
  }

  lemma {:induction false} FileEntriesErrorSticks(f: Dockerfile, runs: seq<string>, n: nat)
    requires n <= |runs| && FileEntries(f, runs[..n]).Err?
    ensures FileEntries(f, runs) == FileEntries(f, runs[..n])
    decreases |runs| - n
  {
    if n < |runs| {
      assert runs[..n + 1][..n] == runs[..n];
      FileEntriesErrorSticks(f, runs, n + 1);
    } else {
      assert runs[..n] == runs;
    }
  }

  lemma {:induction false} MatrixErrorSticks(files: seq<Dockerfile>, n: nat)
    requires n <= |files| && Matrix(files[..n]).Err?
    ensures Matrix(files) == Matrix(files[..n])
    decreases |files| - n
  {
    if n < |files| {
      assert files[..n + 1][..n] == files[..n];
      MatrixErrorSticks(files, n + 1);
    } else {
      assert files[..n] == files;
    }
  }

  /** Adding a runner to the list adds its entry unless skipped. */
  lemma FileEntriesStep(f: Dockerfile, runs: seq<string>, run: string)
    requires FileEntries(f, runs).Ok?
    ensures !Skipped(f.name, run) && EntryFor(f, run).Err? ==> FileEntries(f, runs + [run]) == Err(EntryFor(f, run).error)
    ensures Skipped(f.name, run) ==> FileEntries(f, runs + [run]) == FileEntries(f, runs)
    ensures !Skipped(f.name, run) && EntryFor(f, run).Ok? ==>
              FileEntries(f, runs + [run]) == Ok(FileEntries(f, runs).value + [EntryFor(f, run).value])
  {
    DropLast(runs, run);
  }

  /** The entries of one dockerfile: an x86_64 one, then an aarch64 one
      unless it is the oracledb dockerfile; IndexError without a base image. */
  lemma FileEntriesOfRunners(f: Dockerfile)
    ensures FileEntries(f, RunsOn) == Entries(f)
  {
    assert [] + [X86Runner] == [X86Runner];
    assert [X86Runner] + [ArmRunner] == RunsOn;
    assert !Skipped(f.name, X86Runner);
    assert FileEntries(f, []) == Ok([]);
    FileEntriesStep(f, [], X86Runner);
    EntryForAnyRunner(f, X86Runner, ArmRunner);
    EntryForOf(f, X86Runner);
    EntryForOf(f, ArmRunner);
    if EntryFor(f, X86Runner).Ok? {
      var x86 := EntryFor(f, X86Runner).value;
      assert [] + [x86] == [x86];
      assert FileEntries(f, [X86Runner]) == Ok([x86]);
      FileEntriesStep(f, [X86Runner], ArmRunner);
      if f.name == OracleDockerfile {
        assert Skipped(f.name, ArmRunner);
        assert FileEntries(f, RunsOn) == Ok([x86]);
      } else {
        var arm := EntryFor(f, ArmRunner).value;
        assert !Skipped(f.name, ArmRunner);
        assert FileEntries(f, RunsOn) == Ok([x86] + [arm]);
        assert [x86] + [arm] == [x86, arm];
      }
    }
  }

  /** Adding a dockerfile at the end: an earlier error stays, otherwise its
      entries or its error follow. */
  lemma MatrixStep(init: seq<Dockerfile>, f: Dockerfile)
    ensures Matrix(init).Err? ==> Matrix(init + [f]) == Matrix(init)
    ensures Matrix(init).Ok? && Entries(f).Err? ==> Matrix(init + [f]) == Err(Entries(f).error)
    ensures Matrix(init).Ok? && Entries(f).Ok? ==> Matrix(init + [f]) == Ok(Matrix(init).value + Entries(f).value)
  {
    DropLast(init, f);
  }

  /** The matrix of two lists of dockerfiles is the matrix of the first
      followed by the matrix of the second. */
  lemma {:induction false} MatrixAppend(a: seq<Dockerfile>, b: seq<Dockerfile>)
    requires Matrix(a).Ok? && Matrix(b).Ok?
    ensures Matrix(a + b) == Ok(Matrix(a).value + Matrix(b).value)
    decreases |b|
  {
    if b == [] {
      AppendEmpty(a);
      AppendEmpty(Matrix(a).value);
    } else {
      var b', x := b[..|b| - 1], b[|b| - 1];
      SplitLast(b);
      AppendAssoc(a, b', [x]);
      MatrixStep(b', x);
      MatrixAppend(a, b');
      MatrixStep(a + b', x);
      AppendAssoc(Matrix(a).value, Matrix(b').value, Entries(x).value);
    }
  }

  /** The matrix fails exactly when some dockerfile has no base image line. */
  lemma {:induction false} MatrixFails(files: seq<Dockerfile>)
    ensures Matrix(files).Err? <==> exists i :: 0 <= i < |files| && !HasBaseImage(files[i])
    decreases |files|
  {
    if files != [] {
      var init, f := files[..|files| - 1], files[|files| - 1];
      SplitLast(files);
      MatrixStep(init, f);
      MatrixFails(init);
      if Matrix(init).Err? {
        var i :| 0 <= i < |init| && !HasBaseImage(init[i]);
        assert files[i] == init[i];
      } else if !HasBaseImage(f) {
        assert !HasBaseImage(files[|files| - 1]);
      } else {
        forall i | 0 <= i < |files| ensures HasBaseImage(files[i]) {
          if i < |init| {
            assert files[i] == init[i];
            assert HasBaseImage(init[i]);
          } else {
            assert i == |files| - 1;
          }
        }
      }
    }
  }

  /** The only error the matrix raises is IndexError. */
  lemma {:induction false} MatrixError(files: seq<Dockerfile>)
    ensures Matrix(files).Err? ==> Matrix(files).error == IndexError
    decreases |files|
  {
    if files != [] {
      MatrixError(files[..|files| - 1]);
    }
  }

  /** How many of the dockerfiles are the oracledb one. */
  function OracleCount(files: seq<Dockerfile>): nat
    decreases |files|
  {
    if files == [] then 0
    else OracleCount(files[..|files| - 1]) + if files[|files| - 1].name == OracleDockerfile then 1 else 0
  }

  /** Two entries per dockerfile, one fewer for each oracledb dockerfile. */
  lemma {:induction false} MatrixSize(files: seq<Dockerfile>)
    requires Matrix(files).Ok?
    ensures |Matrix(files).value| == 2 * |files| - OracleCount(files)
    decreases |files|
  {
    if files != [] {
      SplitLast(files);
      MatrixStep(files[..|files| - 1], files[|files| - 1]);
      MatrixSize(files[..|files| - 1]);
      FileEntriesOfRunners(files[|files| - 1]);
    }
  }

  /** What every entry says: the runner is one of `runs_on` and not the
      skipped one, the platform is x86_64 exactly for ubuntu-24.04, the
      dockerfile is one of the files and the parent image is the short name
      of that file's base image, free of `/` and `:`. */
  ghost predicate WellFormed(e: Entry, files: seq<Dockerfile>) {
    && e.runsOn in RunsOn
    && !Skipped(e.dockerfile, e.runsOn)
    && (e.platform == "x86_64" <==> e.runsOn == X86Runner)
    && (e.platform == "x86_64" || e.platform == "aarch64")
    && '/' !in e.parentImage && ':' !in e.parentImage
    && exists i :: 0 <= i < |files| && e.dockerfile == files[i].name
         && BaseImage(SplitLines(files[i].text)).Ok?
         && e.parentImage == ShortName(BaseImage(SplitLines(files[i].text)).value)
  }

  /** Well-formedness survives adding a dockerfile. */
  lemma WellFormedExtends(e: Entry, init: seq<Dockerfile>, f: Dockerfile)
    requires WellFormed(e, init)
    ensures WellFormed(e, init + [f])
  {
    var i :| 0 <= i < |init| && e.dockerfile == init[i].name
             && BaseImage(SplitLines(init[i].text)).Ok?
             && e.parentImage == ShortName(BaseImage(SplitLines(init[i].text)).value);
    assert (init + [f])[i] == init[i];
  }

  /** The entries of the last dockerfile are well-formed. */
  lemma EntriesWellFormed(init: seq<Dockerfile>, f: Dockerfile)
    requires Entries(f).Ok?
    ensures forall e :: e in Entries(f).value ==> WellFormed(e, init + [f])
  {
    assert (init + [f])[|init|] == f;
  }

  lemma {:induction false} MatrixEntriesWellFormed(files: seq<Dockerfile>)
    requires Matrix(files).Ok?
    ensures forall e :: e in Matrix(files).value ==> WellFormed(e, files)
    decreases |files|
  {
    if files != [] {
      var init, f := files[..|files| - 1], files[|files| - 1];
      SplitLast(files);
      MatrixStep(init, f);
      MatrixEntriesWellFormed(init);
      EntriesWellFormed(init, f);
      forall e | e in Matrix(files).value ensures WellFormed(e, files) {
        if e in Matrix(init).value {
          WellFormedExtends(e, init, f);
        }
      }
    }
  }
}
