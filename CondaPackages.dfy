/** `CondaPackageHelper`: reading the requested, installed and available
    conda packages out of the container's `mamba` output, and listing the
    packages for which a newer version is available. */
module CondaPackages {
  import opened Exceptions
  import opened PyStr
  import opened OrderedDict
  import opened SemanticVersion
  import opened SeqFacts

  /** One element of `dependencies` in an exported environment: a conda
      specification string, or the dictionary that lists pip packages. */
  datatype Dependency = Spec(spec: string) | PipSection

  /** Package name to its set of versions, in dictionary order. */
  type Packages = Dict<string, set<string>>

  // ---------------------------------------------------------------------------
  // _parse_package_versions

  /** `re.split("=?=", s)`: `s` cut at every `==` and at every lone `=`,
      scanning from the left. */
  function EqSplit(s: string): (r: seq<string>)
    ensures |r| >= 1
    ensures forall j :: 0 <= j < |r| ==> '=' !in r[j]
    ensures '=' !in s ==> r == [s]
    decreases |s|
  {
    if s == [] then [""]
    else if s[0] == '=' then
      var skip := if |s| > 1 && s[1] == '=' then 2 else 1;
      [""] + EqSplit(s[skip..])
    else
      var rest := EqSplit(s[1..]);
      assert '=' !in s ==> '=' !in s[1..] && [s[0]] + s[1..] == s;
      [[s[0]] + rest[0]] + rest[1..]
  }

  /** The (key, versions) pair one specification string contributes, or the
      IndexError that `split[1][0]` raises when the text after the first
      separator is empty. */
  function ParseEntry(spec: string): Result<(string, set<string>)> {
    var split := EqSplit(spec);
    if |split| == 1 then Ok((split[0], {}))
    else if split[1] == [] then Err(IndexError)
    else if IsDigit(split[1][0]) then Ok((split[0], set p | p in split[1..]))
    else Ok((split[0] + "=" + split[1], {}))
  }

  /** The dictionary `_parse_package_versions` builds from the first `n`
      dependencies: pip sections are skipped, a later entry overwrites the
      value of an earlier one with the same key, and the first failing entry
      aborts. */
  function PackageVersions(deps: seq<Dependency>): (r: Result<Packages>)
    ensures r.Ok? ==> r.value.Valid()
    decreases |deps|
  {
    if deps == [] then Ok(Empty())
    else AddEntry(PackageVersions(deps[..|deps| - 1]), deps[|deps| - 1])
  }

  /** One turn of the loop of `_parse_package_versions`. */
  function AddEntry(acc: Result<Packages>, dep: Dependency): (r: Result<Packages>)
    requires acc.Ok? ==> acc.value.Valid()
    ensures r.Ok? ==> r.value.Valid()
  {
    var packages :- acc;
    match dep
    case PipSection => Ok(packages)
    case Spec(s) =>
      var entry :- ParseEntry(s);
      Ok(packages.Put(entry.0, entry.1))
  }

  /** `_parse_package_versions`, given the decoded `dependencies` list. */
  method ParsePackageVersions(deps: seq<Dependency>) returns (r: Result<Packages>)
    ensures r == PackageVersions(deps)
  {
    var packages: Packages := Empty();
    var i := 0;
    while i < |deps|
      invariant 0 <= i <= |deps|
      invariant PackageVersions(deps[..i]) == Ok(packages)
    {
      assert deps[..i + 1][..i] == deps[..i];
      match deps[i] {
        case PipSection =>
        case Spec(s) =>
          var entry := ParseEntry(s);
          if entry.Err? {
            PackageVersionsErrorSticks(deps, i + 1);
            assert deps[..|deps|] == deps;
            return Err(entry.error);
          }
          packages := packages.Put(entry.value.0, entry.value.1);
      }
      i := i + 1;
    }
    assert deps[..i] == deps;
    r := Ok(packages);
  }

  /** Once a prefix of the dependencies fails, every longer prefix fails with
      the same error. */
  lemma {:induction false} PackageVersionsErrorSticks(deps: seq<Dependency>, n: nat)
    requires n <= |deps| && PackageVersions(deps[..n]).Err?
    ensures PackageVersions(deps[..|deps|]) == PackageVersions(deps[..n])
    decreases |deps| - n
  {
    if n < |deps| {
      assert deps[..n + 1][..n] == deps[..n];
      PackageVersionsErrorSticks(deps, n + 1);
    }
  }

  // Properties of one entry

  /** `re.split("=?=")` cuts `name=rest` and `name==rest` after `name`. */
  lemma {:induction false} EqSplitAfterName(name: string, sep: string, rest: string)
    requires '=' !in name
    requires sep == "=" || sep == "=="
    requires rest == [] || rest[0] != '='
    ensures EqSplit(name + sep + rest) == [name] + EqSplit(rest)
  {
    var s := name + sep + rest;
    if name == [] {
      assert s == sep + rest;
      if sep == "=" {
        assert s[1..] == rest;
      } else {
        assert s[2..] == rest;
      }
    } else {
      assert s[0] == name[0];
      assert s[1..] == name[1..] + sep + rest;
      EqSplitAfterName(name[1..], sep, rest);
      assert [name[0]] + name[1..] == name;
    }
  }

  /** The first piece of the split starts with the first character of the
      string, when that is not `=`. */
  lemma EqSplitHead(s: string)
    requires s != [] && s[0] != '='
    ensures EqSplit(s)[0] != [] && EqSplit(s)[0][0] == s[0]
  {
  }

  /** An entry without `=` is a bare package name with no versions. */
  lemma ParseEntryNoSeparator(spec: string)
    requires '=' !in spec
    ensures ParseEntry(spec) == Ok((spec, {}))
  {
  }

  /** `name=v…` and `name==v…` with a digit after the separator map `name`
      to the set of all the remaining pieces. */
  lemma ParseEntryVersioned(name: string, sep: string, v: string)
    requires '=' !in name && (sep == "=" || sep == "==")
    requires v != [] && IsDigit(v[0])
    ensures ParseEntry(name + sep + v) == Ok((name, set p | p in EqSplit(v)))
  {
    EqSplitAfterName(name, sep, v);
    EqSplitHead(v);
    var split := EqSplit(name + sep + v);
    assert split[1..] == EqSplit(v);
  }

  /** When the text after the separator does not start with a digit, the key
      is `split[0] + "=" + split[1]` with no versions, and any further
      pieces are dropped. */
  lemma ParseEntryNotAVersion(name: string, sep: string, v: string)
    requires '=' !in name && (sep == "=" || sep == "==")
    requires v != [] && v[0] != '=' && !IsDigit(v[0])
    ensures ParseEntry(name + sep + v) == Ok((name + "=" + EqSplit(v)[0], {}))
  {
    EqSplitAfterName(name, sep, v);
    EqSplitHead(v);
  }

  /** An empty text after the separator raises IndexError. */
  lemma ParseEntryEmptyVersion(name: string, sep: string)
    requires '=' !in name && (sep == "=" || sep == "==")
    ensures ParseEntry(name + sep) == Err(IndexError)
  {
    EqSplitAfterName(name, sep, "");
    assert name + sep + "" == name + sep;
  }

  /** A channel-qualified wildcard such as `conda-forge::blas=*` stays whole. */
  lemma ParseEntryChannelExample()
    ensures ParseEntry("conda-forge::blas=*") == Ok(("conda-forge::blas=*", {}))
  {
    ParseEntryNotAVersion("conda-forge::blas", "=", "*");
    assert "conda-forge::blas" + "=" + "*" == "conda-forge::blas=*";
  }

  /** `notebook>=7` is read as the key `notebook>` with the version `7`. */
  lemma ParseEntryLowerBoundExample()
    ensures ParseEntry("notebook>=7") == Ok(("notebook>", {"7"}))
  {
    ParseEntryVersioned("notebook>", "=", "7");
    assert "notebook>" + "=" + "7" == "notebook>=7";
    assert EqSplit("7") == ["7"];
    assert (set p | p in ["7"]) == {"7"};
  }

  // Properties of the whole dictionary

  /** The entry `dep` parses to the pair (`key`, `versions`). */
  predicate Gives(dep: Dependency, key: string, versions: set<string>) {
    dep.Spec? && ParseEntry(dep.spec) == Ok((key, versions))
  }

  /** The entry `dep` is a specification string whose parsing raises. */
  predicate Fails(dep: Dependency) {
    dep.Spec? && ParseEntry(dep.spec).Err?
  }

  /** Parsing fails exactly when one of the string entries fails, and the
      error is then IndexError. */
  lemma {:induction false} PackageVersionsFails(deps: seq<Dependency>)
    ensures PackageVersions(deps).Err? <==> exists i :: 0 <= i < |deps| && Fails(deps[i])
    ensures PackageVersions(deps).Err? ==> PackageVersions(deps).error == IndexError
  {
    if deps != [] {
      var init := deps[..|deps| - 1];
      PackageVersionsFails(init);
      if PackageVersions(init).Err? {
        var i :| 0 <= i < |init| && Fails(init[i]);
        assert deps[i] == init[i];
      } else if PackageVersions(deps).Ok? {
        forall i | 0 <= i < |deps| ensures !Fails(deps[i]) {
          if i < |init| {
            assert deps[i] == init[i];
          }
        }
      }
    }
  }

  /** Packages installed through pip (the dictionary entries) are dropped:
      the result is the one for the string entries alone. */
  lemma {:induction false} PipSectionsDropped(deps: seq<Dependency>)
    ensures PackageVersions(deps) == PackageVersions(SpecsOnly(deps))
  {
    if deps != [] {
      var init := deps[..|deps| - 1];
      var last := deps[|deps| - 1];
      assert deps == init + [last];
      SpecsOnlyAppend(init, last);
      PipSectionsDropped(init);
      var s := SpecsOnly(deps);
      if last.Spec? {
        assert s == SpecsOnly(init) + [last];
        assert s[..|s| - 1] == SpecsOnly(init) && s[|s| - 1] == last;
        assert PackageVersions(s) == AddEntry(PackageVersions(SpecsOnly(init)), last);
      } else {
        assert s == SpecsOnly(init);
        assert PackageVersions(deps) == AddEntry(PackageVersions(init), last);
      }
    }
  }

  function SpecsOnly(deps: seq<Dependency>): (r: seq<Dependency>)
    ensures forall i :: 0 <= i < |r| ==> r[i].Spec?
  {
    if deps == [] then []
    else if deps[0].Spec? then [deps[0]] + SpecsOnly(deps[1..])
    else SpecsOnly(deps[1..])
  }

  lemma {:induction false} SpecsOnlyAppend(deps: seq<Dependency>, d: Dependency)
    ensures SpecsOnly(deps + [d]) == SpecsOnly(deps) + (if d.Spec? then [d] else [])
  {
    if deps == [] {
      assert deps + [d] == [d];
    } else {
      assert (deps + [d])[1..] == deps[1..] + [d];
      SpecsOnlyAppend(deps[1..], d);
    }
  }

  /** The keys of the dictionary are exactly the keys the entries parse to. */
  lemma {:induction false} PackageVersionsKeys(deps: seq<Dependency>, k: string)
    requires PackageVersions(deps).Ok?
    ensures k in PackageVersions(deps).value.items <==>
            exists i, vs :: 0 <= i < |deps| && Gives(deps[i], k, vs)
  {
    if deps != [] {
      var init := deps[..|deps| - 1];
      PackageVersionsKeys(init, k);
      assert forall i :: 0 <= i < |init| ==> init[i] == deps[i];
      var last := deps[|deps| - 1];
      if k in PackageVersions(deps).value.items {
        if k in PackageVersions(init).value.items {
          var i, vs :| 0 <= i < |init| && Gives(init[i], k, vs);
          assert Gives(deps[i], k, vs);
        } else {
          assert Gives(last, k, PackageVersions(deps).value.items[k]);
        }
      } else {
        forall i, vs | 0 <= i < |deps| ensures !Gives(deps[i], k, vs) {
          if i < |init| {
            assert deps[i] == init[i];
          }
        }
      }
    }
  }

  /** The versions stored for a key are those of the LAST entry with that
      key: a later entry overwrites an earlier one. */
  lemma {:induction false} LastEntryWins(deps: seq<Dependency>, i: nat, k: string, vs: set<string>)
    requires PackageVersions(deps).Ok?
    requires i < |deps| && Gives(deps[i], k, vs)
    requires forall j, ws :: i < j < |deps| ==> !Gives(deps[j], k, ws)
    ensures k in PackageVersions(deps).value.items
    ensures PackageVersions(deps).value.items[k] == vs
  {
    var init := deps[..|deps| - 1];
    var last := deps[|deps| - 1];
    if i < |deps| - 1 {
      forall j, ws | i < j < |init| ensures !Gives(init[j], k, ws) {
        assert init[j] == deps[j];
      }
      LastEntryWins(init, i, k, vs);
      if last.Spec? {
        var entry := ParseEntry(last.spec);
        assert !Gives(last, k, entry.value.1);
      }
    }
  }

  // ---------------------------------------------------------------------------
  // _extract_available

  /** `re.match(r"^(\S+)\s+(\S+)", line)`: the first run of non-whitespace,
      then whitespace, then the next run of non-whitespace; `None` when the
      line does not start that way. */
  function MatchPackageLine(line: string): Option<(string, string)> {
    var n1 := RunLength(line, SpaceClass, 1);
    var rest1 := line[n1..];
    var n2 := RunLength(rest1, SpaceClass, 0);
    var rest2 := rest1[n2..];
    var n3 := RunLength(rest2, SpaceClass, 1);
    if n1 == 0 || n2 == 0 || n3 == 0 then None else Some((line[..n1], rest2[..n3]))
  }

  /** The match succeeds exactly when the line starts with a non-blank
      character and has at least two whitespace-separated words, and then
      yields the first two words of `line.split()`. */
  lemma MatchIsFirstTwoWords(line: string)
    ensures MatchPackageLine(line) ==
      if line != [] && !IsSpace(line[0]) && |SplitWs(line)| >= 2
      then Some((SplitWs(line)[0], SplitWs(line)[1]))
      else None
  {
    if line != [] && !IsSpace(line[0]) {
      var n1 := RunLength(line, SpaceClass, 1);
      var rest1 := line[n1..];
      var n2 := RunLength(rest1, SpaceClass, 0);
      var rest2 := rest1[n2..];
      assert SplitWs(line) == [line[..n1]] + Runs(rest1, SpaceClass);
      RunsSkipSeparators(rest1, n2, SpaceClass);
      if rest2 != [] {
        assert SpaceClass(rest2[0]) == 1;
      }
    }
  }

  /** The lines `_extract_available` reads: all but the first two. */
  function BodyLines(text: string): seq<string> {
    var lines := SplitLines(text);
    if |lines| >= 2 then lines[2..] else []
  }

  type LineMatch = Option<(string, string)>

  /** The match of every listing line, in order. */
  function Matches(lines: seq<string>): (ms: seq<LineMatch>)
    ensures |ms| == |lines|
    ensures forall i :: 0 <= i < |lines| ==> ms[i] == MatchPackageLine(lines[i])
  {
    seq(|lines|, i requires 0 <= i < |lines| => MatchPackageLine(lines[i]))
  }

  /** The defaultdict of sets built from the matches of the listing lines; a
      line that did not match fails the assertion. */
  function Collect(ms: seq<LineMatch>): (r: Result<Packages>)
    ensures r.Ok? ==> r.value.Valid()
    decreases |ms|
  {
    if ms == [] then Ok(Empty())
    else AddMatch(Collect(ms[..|ms| - 1]), ms[|ms| - 1])
  }

  /** One turn of the loop of `_extract_available`. */
  function AddMatch(acc: Result<Packages>, m: LineMatch): (r: Result<Packages>)
    requires acc.Ok? ==> acc.value.Valid()
    ensures r.Ok? ==> r.value.Valid()
  {
    var ddict :- acc;
    match m
    case None => Err(AssertionError)
    case Some(pv) => Ok(ddict.Put(pv.0, ddict.GetOr(pv.0, {}) + {pv.1}))
  }

  function AvailableFrom(lines: seq<string>): Result<Packages> {
    Collect(Matches(lines))
  }

  /** `_extract_available(text)` as a value. */
  function Available(text: string): Result<Packages> {
    AvailableFrom(BodyLines(text))
  }

  /** `_extract_available`: the loop adding each listed version to its
      package's set. */
  method ExtractAvailable(text: string) returns (r: Result<Packages>)
    ensures r == Available(text)
  {
    var lines := SplitLines(text);
    var body := if |lines| >= 2 then lines[2..] else [];
    ghost var ms := Matches(body);
    var ddict: Packages := Empty();
    var i := 0;
    while i < |body|
      invariant 0 <= i <= |body|
      invariant Collect(ms[..i]) == Ok(ddict)
    {
      var m := MatchPackageLine(body[i]);
      TakeNext(ms, i);
      CollectStep(ms[..i], ms[i]);
      if m.None? {
        CollectErrorSticks(ms, i + 1);
        TakeAll(ms);
        return Err(AssertionError);
      }
      var pkg, version := m.value.0, m.value.1;
      ddict := ddict.Put(pkg, ddict.GetOr(pkg, {}) + {version});
      i := i + 1;
    }
    TakeAll(ms);
    r := Ok(ddict);
  }

  /** One more match: an earlier failure stays, a missing match fails with
      AssertionError, and a match adds its version to its package's set. */
  lemma CollectStep(init: seq<LineMatch>, m: LineMatch)
    ensures Collect(init).Err? ==> Collect(init + [m]) == Collect(init)
    ensures Collect(init).Ok? && m.None? ==> Collect(init + [m]) == Err(AssertionError)
    ensures Collect(init).Ok? && m.Some? ==>
              var d := Collect(init).value;
              Collect(init + [m]) == Ok(d.Put(m.value.0, d.GetOr(m.value.0, {}) + {m.value.1}))
  {
    DropLast(init, m);
  }

  lemma {:induction false} CollectErrorSticks(ms: seq<LineMatch>, n: nat)
    requires n <= |ms| && Collect(ms[..n]).Err?
    ensures Collect(ms[..|ms|]) == Collect(ms[..n])
    decreases |ms| - n
  {
    if n < |ms| {
      TakeNext(ms, n);
      CollectStep(ms[..n], ms[n]);
      CollectErrorSticks(ms, n + 1);
    }
  }

  /** The two header lines are ignored whatever they hold. */
  lemma HeaderIgnored(h1: string, h2: string, rest: string)
    requires forall i :: 0 <= i < |h1| ==> !IsLineBoundary(h1[i])
    requires forall i :: 0 <= i < |h2| ==> !IsLineBoundary(h2[i])
    ensures Available(h1 + "\n" + h2 + "\n" + rest) == AvailableFrom(SplitLines(rest))
  {
    TwoHeaderLines(h1, h2, rest);
    var lines := [h1] + ([h2] + SplitLines(rest));
    assert lines[2..] == SplitLines(rest);
  }

  lemma TwoHeaderLines(h1: string, h2: string, rest: string)
    requires forall i :: 0 <= i < |h1| ==> !IsLineBoundary(h1[i])
    requires forall i :: 0 <= i < |h2| ==> !IsLineBoundary(h2[i])
    ensures SplitLines(h1 + "\n" + h2 + "\n" + rest) == [h1] + ([h2] + SplitLines(rest))
  {
    var nl := "\n";
    AppendAssoc(h1 + nl + h2, nl, rest);
    AppendAssoc(h1 + nl, h2, nl + rest);
    AppendAssoc(h2, nl, rest);
    SplitLinesCons(h2, rest);
    SplitLinesCons(h1, h2 + nl + rest);
  }

  lemma {:induction false} CollectFails(ms: seq<LineMatch>)
    ensures Collect(ms).Err? <==> exists i :: 0 <= i < |ms| && ms[i].None?
    ensures Collect(ms).Err? ==> Collect(ms).error == AssertionError
  {
    if ms != [] {
      var init := ms[..|ms| - 1];
      CollectFails(init);
      if Collect(init).Err? {
        var i :| 0 <= i < |init| && init[i].None?;
        assert ms[i] == init[i];
      } else if Collect(ms).Ok? {
        forall i | 0 <= i < |ms| ensures ms[i].Some? {
          if i < |init| {
            assert ms[i] == init[i];
          }
        }
      }
    }
  }

  /** The listing fails exactly when some line does not match, and the error
      is then AssertionError. */
  lemma AvailableFails(lines: seq<string>)
    ensures AvailableFrom(lines).Err? <==> exists i :: 0 <= i < |lines| && MatchPackageLine(lines[i]).None?
    ensures AvailableFrom(lines).Err? ==> AvailableFrom(lines).error == AssertionError
  {
    var ms := Matches(lines);
    CollectFails(ms);
    if AvailableFrom(lines).Err? {
      var i :| 0 <= i < |ms| && ms[i].None?;
      assert MatchPackageLine(lines[i]).None?;
    }
  }

  lemma {:induction false} CollectVersions(ms: seq<LineMatch>, pkg: string, v: string)
    requires Collect(ms).Ok?
    ensures v in Collect(ms).value.GetOr(pkg, {}) <==>
            exists i :: 0 <= i < |ms| && ms[i] == Some((pkg, v))
  {
    if ms != [] {
      var init, last := ms[..|ms| - 1], ms[|ms| - 1];
      CollectVersions(init, pkg, v);
      var before := Collect(init).value;
      var m := last.value;
      var d := Collect(ms).value;
      assert d.GetOr(pkg, {}) == if pkg == m.0 then before.GetOr(pkg, {}) + {m.1} else before.GetOr(pkg, {});
      if v in d.GetOr(pkg, {}) {
        if v in before.GetOr(pkg, {}) {
          var i :| 0 <= i < |init| && init[i] == Some((pkg, v));
          assert ms[i] == init[i];
        } else {
          assert ms[|ms| - 1] == Some((pkg, v));
        }
      }
      if exists i :: 0 <= i < |ms| && ms[i] == Some((pkg, v)) {
        var i :| 0 <= i < |ms| && ms[i] == Some((pkg, v));
        if i < |init| {
          assert init[i] == ms[i];
        }
      }
    }
  }

  /** A version is listed for a package exactly when some line pairs the two:
      the versions of a package accumulate across lines. */
  lemma AvailableVersions(lines: seq<string>, pkg: string, v: string)
    requires AvailableFrom(lines).Ok?
    ensures v in AvailableFrom(lines).value.GetOr(pkg, {}) <==>
            exists i :: 0 <= i < |lines| && MatchPackageLine(lines[i]) == Some((pkg, v))
  {
    var ms := Matches(lines);
    CollectVersions(ms, pkg, v);
    if v in AvailableFrom(lines).value.GetOr(pkg, {}) {
      var i :| 0 <= i < |ms| && ms[i] == Some((pkg, v));
      assert MatchPackageLine(lines[i]) == Some((pkg, v));
    }
  }

  // ---------------------------------------------------------------------------
  // check_updatable_packages

  /** One row of the comparison: a package, its current and its newest version. */
  datatype Comparison = Comparison(package: string, current: string, newest: string)

  /** `m` is an element of `vs` with the smallest key. */
  predicate IsMinKey(m: string, vs: set<string>) {
    m in vs && forall v :: v in vs ==> !TupleLess(SemanticKey(v), SemanticKey(m))
  }

  /** `m` is an element of `vs` with the largest key. */
  predicate IsMaxKey(m: string, vs: set<string>) {
    m in vs && forall v :: v in vs ==> !TupleLess(SemanticKey(m), SemanticKey(v))
  }

  lemma {:induction false} MinKeyExists(vs: set<string>)
    requires vs != {}
    ensures exists m :: IsMinKey(m, vs)
    decreases |vs|
  {
    var x :| x in vs;
    TupleLessIrreflexive(SemanticKey(x));
    if vs == {x} {
      assert IsMinKey(x, vs);
    } else {
      MinKeyExists(vs - {x});
      var m :| IsMinKey(m, vs - {x});
      if TupleLess(SemanticKey(x), SemanticKey(m)) {
        forall v | v in vs ensures !TupleLess(SemanticKey(v), SemanticKey(x)) {
          if v != x && TupleLess(SemanticKey(v), SemanticKey(x)) {
            TupleLessTransitive(SemanticKey(v), SemanticKey(x), SemanticKey(m));
          }
        }
        assert IsMinKey(x, vs);
      } else {
        assert IsMinKey(m, vs);
      }
    }
  }

  lemma {:induction false} MaxKeyExists(vs: set<string>)
    requires vs != {}
    ensures exists m :: IsMaxKey(m, vs)
    decreases |vs|
  {
    var x :| x in vs;
    TupleLessIrreflexive(SemanticKey(x));
    if vs == {x} {
      assert IsMaxKey(x, vs);
    } else {
      MaxKeyExists(vs - {x});
      var m :| IsMaxKey(m, vs - {x});
      if TupleLess(SemanticKey(m), SemanticKey(x)) {
        forall v | v in vs ensures !TupleLess(SemanticKey(x), SemanticKey(v)) {
          if v != x && TupleLess(SemanticKey(x), SemanticKey(v)) {
            TupleLessTransitive(SemanticKey(m), SemanticKey(x), SemanticKey(v));
          }
        }
        assert IsMaxKey(x, vs);
      } else {
        assert IsMaxKey(m, vs);
      }
    }
  }

  /** `min(versions, key=semantic_cmp)`: an element with the smallest key
      (among several with equal keys, the set's iteration order decides), or
      ValueError for an empty set. */
  method MinByKey(vs: set<string>) returns (r: Result<string>)
    ensures r.Err? <==> vs == {}
    ensures r.Err? ==> r.error == ValueError
    ensures r.Ok? ==> IsMinKey(r.value, vs)
  {
    if vs == {} {
      return Err(ValueError);
    }
    MinKeyExists(vs);
    var m :| IsMinKey(m, vs);
    r := Ok(m);
  }

  /** `sorted(versions, key=semantic_cmp)[-1]`: an element with the largest
      key (the sort is stable, so among equal keys the set's iteration order
      decides), or IndexError for an empty set. */
  method NewestByKey(vs: set<string>) returns (r: Result<string>)
    ensures r.Err? <==> vs == {}
    ensures r.Err? ==> r.error == IndexError
    ensures r.Ok? ==> IsMaxKey(r.value, vs)
  {
    if vs == {} {
      return Err(IndexError);
    }
    MaxKeyExists(vs);
    var m :| IsMaxKey(m, vs);
    r := Ok(m);
  }

  /** A newer version is available: some available version has a larger key
      than some installed version. */
  ghost predicate Outdated(installed: set<string>, available: set<string>) {
    exists c, n :: c in installed && n in available && TupleLess(SemanticKey(c), SemanticKey(n))
  }

  /** The test `check_updatable_packages` applies to the smallest installed
      and the largest available version decides exactly `Outdated`. */
  lemma ComparisonDecidesOutdated(installed: set<string>, available: set<string>, current: string, newest: string)
    requires IsMinKey(current, installed) && IsMaxKey(newest, available)
    ensures (current != newest && TupleLess(SemanticKey(current), SemanticKey(newest)))
            <==> Outdated(installed, available)
  {
    var kc, kn := SemanticKey(current), SemanticKey(newest);
    if TupleLess(kc, kn) {
      TupleLessIrreflexive(kc);
      assert current != newest;
    }
    if Outdated(installed, available) {
      var c, n :| c in installed && n in available && TupleLess(SemanticKey(c), SemanticKey(n));
      TupleLessTotal(kc, SemanticKey(c));
      TupleLessTotal(SemanticKey(n), kn);
      if kc != SemanticKey(c) {
        TupleLessTransitive(kc, SemanticKey(c), SemanticKey(n));
      }
      if SemanticKey(n) != kn {
        TupleLessTransitive(kc, SemanticKey(n), kn);
      }
      TupleLessIrreflexive(kc);
    }
  }

  /** Whether one installed package is listed, or the ValueError `min` raises
      when it has available versions but no installed one. */
  ghost function Listed(pkg: string, inst: Packages, req: Packages, avail: Packages, requestedOnly: bool): Result<bool> {
    if requestedOnly && pkg !in req.items then Ok(false)
    else if avail.GetOr(pkg, {}) == {} then Ok(false)
    else if inst.GetOr(pkg, {}) == {} then Err(ValueError)
    else Ok(Outdated(inst.GetOr(pkg, {}), avail.GetOr(pkg, {})))
  }

  /** The names of the listed packages among `keys`, in that order. */
  ghost function UpdatableNames(keys: seq<string>, inst: Packages, req: Packages, avail: Packages, requestedOnly: bool): Result<seq<string>>
    decreases |keys|
  {
    if keys == [] then Ok([])
    else
      var names :- UpdatableNames(keys[..|keys| - 1], inst, req, avail, requestedOnly);
      var listed :- Listed(keys[|keys| - 1], inst, req, avail, requestedOnly);
      Ok(if listed then names + [keys[|keys| - 1]] else names)
  }

  lemma {:induction false} UpdatableNamesErrorSticks(keys: seq<string>, n: nat, inst: Packages, req: Packages, avail: Packages, requestedOnly: bool)
    requires n <= |keys| && UpdatableNames(keys[..n], inst, req, avail, requestedOnly).Err?
    ensures UpdatableNames(keys[..|keys|], inst, req, avail, requestedOnly) == UpdatableNames(keys[..n], inst, req, avail, requestedOnly)
    decreases |keys| - n
  {
    if n < |keys| {
      TakeNext(keys, n);
      UpdatableNamesStep(keys[..n], keys[n], inst, req, avail, requestedOnly);
      UpdatableNamesErrorSticks(keys, n + 1, inst, req, avail, requestedOnly);
    }
  }

  /** `UpdatableNames` of a key list one key longer. */
  lemma UpdatableNamesStep(init: seq<string>, k: string, inst: Packages, req: Packages, avail: Packages, requestedOnly: bool)
    ensures var before := UpdatableNames(init, inst, req, avail, requestedOnly);
            var listed := Listed(k, inst, req, avail, requestedOnly);
            UpdatableNames(init + [k], inst, req, avail, requestedOnly) ==
              if before.Err? then before
              else if listed.Err? then Err(listed.error)
              else Ok(if listed.value then before.value + [k] else before.value)
  {
    DropLast(init, k);
  }

  /** When `min` raises on key `i`, the whole check raises its ValueError and
      the rows gathered for the keys before it are those `FailsAt` names. */
  lemma FailureAt(rows: seq<Comparison>, names: seq<string>, i: nat, keys: seq<string>,
                  inst: Packages, req: Packages, avail: Packages, requestedOnly: bool)
    requires i < |keys|
    requires UpdatableNames(keys[..i], inst, req, avail, requestedOnly) == Ok(names)
    requires Describes(rows, names, inst, avail)
    requires Listed(keys[i], inst, req, avail, requestedOnly).Err?
    ensures UpdatableNames(keys, inst, req, avail, requestedOnly) == Err(Listed(keys[i], inst, req, avail, requestedOnly).error)
    ensures FailsAt(rows, i, keys, inst, req, avail, requestedOnly)
  {
    TakeNext(keys, i);
    UpdatableNamesStep(keys[..i], keys[i], inst, req, avail, requestedOnly);
    UpdatableNamesErrorSticks(keys, i + 1, inst, req, avail, requestedOnly);
    TakeAll(keys);
  }

  /** One more row describing one more name keeps `Describes`. */
  lemma DescribesAppend(rows: seq<Comparison>, names: seq<string>, row: Comparison, inst: Packages, avail: Packages)
    requires Describes(rows, names, inst, avail)
    requires RowFor(row, row.package, inst, avail)
    ensures Describes(rows + [row], names + [row.package], inst, avail)
  {
    DropLast(rows, row);
    DropLast(names, row.package);
  }

  /** The comparison rows name the packages `names`, in order, each with a
      smallest-key installed version and a largest-key available version. */
  ghost predicate Describes(rows: seq<Comparison>, names: seq<string>, inst: Packages, avail: Packages) {
    && |rows| == |names|
    && forall i :: 0 <= i < |rows| ==> RowFor(rows[i], names[i], inst, avail)
  }

  /** A row compares package `name`: its smallest installed and its largest
      available version. */
  ghost predicate RowFor(row: Comparison, name: string, inst: Packages, avail: Packages) {
    && row.package == name
    && IsMinKey(row.current, inst.GetOr(name, {}))
    && IsMaxKey(row.newest, avail.GetOr(name, {}))
  }

  /** Every listed package is one of the given keys that passes the filter,
      and the list keeps the keys' order. */
  lemma {:induction false} UpdatableNamesAreFiltered(keys: seq<string>, inst: Packages, req: Packages, avail: Packages, requestedOnly: bool)
    requires UpdatableNames(keys, inst, req, avail, requestedOnly).Ok?
    ensures forall p :: p in UpdatableNames(keys, inst, req, avail, requestedOnly).value <==>
              p in keys && Listed(p, inst, req, avail, requestedOnly) == Ok(true)
  {
    if keys != [] {
      var init := keys[..|keys| - 1];
      UpdatableNamesAreFiltered(init, inst, req, avail, requestedOnly);
      assert keys == init + [keys[|keys| - 1]];
      forall p | p in init ensures Listed(p, inst, req, avail, requestedOnly).Ok? {
        var j :| 0 <= j < |init| && init[j] == p;
        ListedOkOnPrefix(keys, j, inst, req, avail, requestedOnly);
      }
    }
  }

  lemma {:induction false} ListedOkOnPrefix(keys: seq<string>, j: nat, inst: Packages, req: Packages, avail: Packages, requestedOnly: bool)
    requires j < |keys| && UpdatableNames(keys, inst, req, avail, requestedOnly).Ok?
    ensures Listed(keys[j], inst, req, avail, requestedOnly).Ok?
    decreases |keys|
  {
    if j < |keys| - 1 {
      var init := keys[..|keys| - 1];
      assert init[j] == keys[j];
      ListedOkOnPrefix(init, j, inst, req, avail, requestedOnly);
    }
  }

  /** The body of the loop in `check_updatable_packages` for one installed
      package: skipped, a comparison row, or the ValueError of `min`. */
  method ComparePackage(pkg: string, inst: Packages, req: Packages, avail: Packages, requestedOnly: bool)
    returns (r: Result<Option<Comparison>>)
    ensures r.Err? <==> Listed(pkg, inst, req, avail, requestedOnly).Err?
    ensures r.Err? ==> r.error == Listed(pkg, inst, req, avail, requestedOnly).error
    ensures r.Ok? ==> (r.value.Some? <==> Listed(pkg, inst, req, avail, requestedOnly).value)
    ensures r.Ok? && r.value.Some? ==> RowFor(r.value.value, pkg, inst, avail)
  {
    if requestedOnly && pkg !in req.items {
      return Ok(None);
    }
    var availVs := avail.GetOr(pkg, {});
    if availVs == {} {
      return Ok(None);
    }
    var current :- MinByKey(inst.GetOr(pkg, {}));
    var newest := NewestByKey(availVs);
    ComparisonDecidesOutdated(inst.GetOr(pkg, {}), availVs, current, newest.value);
    if current != newest.value && TupleLess(SemanticKey(current), SemanticKey(newest.value)) {
      r := Ok(Some(Comparison(pkg, current, newest.value)));
    } else {
      r := Ok(None);
    }
  }

  /** What the container answers to the three `mamba` commands, already
      decoded: the `dependencies` of the two environment exports, and the
      text of the outdated-package search. */
  datatype Container = Container(installedExport: seq<Dependency>, requestedExport: seq<Dependency>, searchOutput: string)

  const InstalledCmd := "mamba env export --no-build --json"
  const RequestedCmd := "mamba env export --no-build --json --from-history"
  const AvailableCmd := "mamba search --outdated --quiet"

  /** The command a cached query runs: none once its answer is cached. */
  function Run(cache: Option<Packages>, cmd: string): (cmds: seq<string>)
    ensures cache.None? <==> cmds == [cmd]
    ensures cache.Some? <==> cmds == []
  {
    if cache.None? then [cmd] else []
  }

  /** The names of the packages `check_updatable_packages` lists, or the
      error it raises, as a function of the container's answers. */
  ghost function Updatable(c: Container, requestedOnly: bool): Result<seq<string>> {
    var q :- Queried(c);
    UpdatableNames(q.installed.keys, q.installed, q.requested, q.available, requestedOnly)
  }

  /** The requested, installed and available maps, or the error of the first
      accessor that raises. */
  datatype Answers = Answers(requested: Packages, installed: Packages, available: Packages)

  ghost function Queried(c: Container): Result<Answers> {
    var req :- PackageVersions(c.requestedExport);
    var inst :- PackageVersions(c.installedExport);
    var avail :- Available(c.searchOutput);
    Ok(Answers(req, inst, avail))
  }

  /** The three accessors succeed one after the other. */
  ghost predicate QueriesOk(c: Container) {
    Queried(c).Ok?
  }

  /** The commands the three accessors run, in order, given what was cached:
      a failing parse stops the accessors that follow it. */
  function QueryLog(c: Container, req: Option<Packages>, inst: Option<Packages>, avail: Option<Packages>): (cmds: seq<string>)
    ensures req.Some? && inst.Some? && avail.Some? ==> cmds == []
    ensures PackageVersions(c.requestedExport).Err? ==> cmds == Run(req, RequestedCmd)
    ensures PackageVersions(c.requestedExport).Ok? && PackageVersions(c.installedExport).Err? ==>
              cmds == Run(req, RequestedCmd) + Run(inst, InstalledCmd)
    ensures PackageVersions(c.requestedExport).Ok? && PackageVersions(c.installedExport).Ok? ==>
              cmds == Run(req, RequestedCmd) + Run(inst, InstalledCmd) + Run(avail, AvailableCmd)
  {
    Run(req, RequestedCmd)
      + if PackageVersions(c.requestedExport).Err? then []
        else (Run(inst, InstalledCmd)
              + if PackageVersions(c.installedExport).Err? then []
                else Run(avail, AvailableCmd))
  }

  /** `rows` are the comparison rows gathered before the package at index `n`
      raised: every earlier key was handled, and `min` failed on `keys[n]`. */
  ghost predicate FailsAt(rows: seq<Comparison>, n: nat, keys: seq<string>, inst: Packages, req: Packages, avail: Packages, requestedOnly: bool) {
    && n < |keys|
    && UpdatableNames(keys[..n], inst, req, avail, requestedOnly).Ok?
    && Listed(keys[n], inst, req, avail, requestedOnly).Err?
    && Describes(rows, UpdatableNames(keys[..n], inst, req, avail, requestedOnly).value, inst, avail)
  }

  class CondaPackageHelper {
    const container: Container
    var requested: Option<Packages>
    var installed: Option<Packages>
    var available: Option<Packages>
    var comparison: seq<Comparison>
    /** The commands executed in the container so far, in order. */
    var commands: seq<string>

    /** Every cached map is what parsing the container's answer gives. */
    ghost predicate Valid()
      reads this
    {
      && (requested.Some? ==> PackageVersions(container.requestedExport) == Ok(requested.value))
      && (installed.Some? ==> PackageVersions(container.installedExport) == Ok(installed.value))
      && (available.Some? ==> Available(container.searchOutput) == Ok(available.value))
    }

    constructor (container: Container)
      ensures Valid()
      ensures this.container == container
      ensures requested == None && installed == None && available == None
      ensures comparison == [] && commands == []
    {
      this.container := container;
      requested, installed, available := None, None, None;
      comparison := [];
      commands := [];
    }

    /** `installed_packages()`: queries the container on the first call only. */
    method InstalledPackages() returns (r: Result<Packages>)
      requires Valid()
      modifies this`installed, this`commands
      ensures Valid()
      ensures r == PackageVersions(container.installedExport)
      ensures commands == old(commands) + Run(old(installed), InstalledCmd)
      ensures old(installed).Some? ==> installed == old(installed) && commands == old(commands)
      ensures old(installed).None? ==>
                && commands == old(commands) + [InstalledCmd]
                && installed == (if r.Ok? then Some(r.value) else None)
    {
      if installed.None? {
        commands := commands + [InstalledCmd];
        var parsed := ParsePackageVersions(container.installedExport);
        if parsed.Err? {
          return parsed;
        }
        installed := Some(parsed.value);
      }
      r := Ok(installed.value);
    }

    /** `requested_packages()`: queries the container on the first call only. */
    method RequestedPackages() returns (r: Result<Packages>)
      requires Valid()
      modifies this`requested, this`commands
      ensures Valid()
      ensures r == PackageVersions(container.requestedExport)
      ensures commands == old(commands) + Run(old(requested), RequestedCmd)
      ensures old(requested).Some? ==> requested == old(requested) && commands == old(commands)
      ensures old(requested).None? ==>
                && commands == old(commands) + [RequestedCmd]
                && requested == (if r.Ok? then Some(r.value) else None)
    {
      if requested.None? {
        commands := commands + [RequestedCmd];
        var parsed := ParsePackageVersions(container.requestedExport);
        if parsed.Err? {
          return parsed;
        }
        requested := Some(parsed.value);
      }
      r := Ok(requested.value);
    }

    /** `available_packages()`: queries the container on the first call only. */
    method AvailablePackages() returns (r: Result<Packages>)
      requires Valid()
      modifies this`available, this`commands
      ensures Valid()
      ensures r == Available(container.searchOutput)
      ensures commands == old(commands) + Run(old(available), AvailableCmd)
      ensures old(available).Some? ==> available == old(available) && commands == old(commands)
      ensures old(available).None? ==>
                && commands == old(commands) + [AvailableCmd]
                && available == (if r.Ok? then Some(r.value) else None)
    {
      if available.None? {
        commands := commands + [AvailableCmd];
        var parsed := ExtractAvailable(container.searchOutput);
        if parsed.Err? {
          return parsed;
        }
        available := Some(parsed.value);
      }
      r := Ok(available.value);
    }

    /** The first three lines of `check_updatable_packages`: the requested,
        installed and available maps, each fetched through its cache. */
    method QueryContainer() returns (r: Result<Answers>)
      requires Valid()
      modifies this`requested, this`installed, this`available, this`commands
      ensures Valid()
      ensures r == Queried(container)
      ensures commands == old(commands) + QueryLog(container, old(requested), old(installed), old(available))
      ensures requested.Some? <==> PackageVersions(container.requestedExport).Ok?
      ensures installed.Some? <==>
                old(installed).Some? || (PackageVersions(container.requestedExport).Ok? && PackageVersions(container.installedExport).Ok?)
      ensures available.Some? <==> old(available).Some? || r.Ok?
      ensures r.Ok? ==>
                requested == Some(r.value.requested) && installed == Some(r.value.installed) && available == Some(r.value.available)
    {
      ghost var cmds0 := commands;
      ghost var R, I, A := Run(requested, RequestedCmd), Run(installed, InstalledCmd), Run(available, AvailableCmd);
      var req := RequestedPackages();
      if req.Err? {
        return Err(req.error);
      }
      var inst := InstalledPackages();
      AppendAssoc(cmds0, R, I);
      if inst.Err? {
        return Err(inst.error);
      }
      var avail := AvailablePackages();
      AppendAssoc(cmds0, R + I, A);
      if avail.Err? {
        return Err(avail.error);
      }
      r := Ok(Answers(req.value, inst.value, avail.value));
    }

    /** `check_updatable_packages(requested_only)`: rebuilds `comparison` from
        empty, in installed-map order, with one row per outdated package; when
        an accessor raises, `comparison` is left as it was. */
    method CheckUpdatablePackages(requestedOnly: bool) returns (r: Result<seq<Comparison>>)
      requires Valid()
      modifies this
      ensures Valid()
      ensures r.Err? <==> Updatable(container, requestedOnly).Err?
      ensures r.Err? ==> r.error == Updatable(container, requestedOnly).error
      ensures r.Ok? ==>
                && comparison == r.value
                && Describes(r.value, Updatable(container, requestedOnly).value,
                             Queried(container).value.installed, Queried(container).value.available)
      ensures commands == old(commands) + QueryLog(container, old(requested), old(installed), old(available))
      ensures r.Ok? ==>
                && requested == Some(Queried(container).value.requested)
                && installed == Some(Queried(container).value.installed)
                && available == Some(Queried(container).value.available)
      ensures requested.Some? <==> PackageVersions(container.requestedExport).Ok?
      ensures installed.Some? <==>
                old(installed).Some? || (PackageVersions(container.requestedExport).Ok? && PackageVersions(container.installedExport).Ok?)
      ensures available.Some? <==> old(available).Some? || QueriesOk(container)
      ensures !QueriesOk(container) ==> comparison == old(comparison)
      ensures QueriesOk(container) && r.Err? ==>
                var q := Queried(container).value;
                exists n :: FailsAt(comparison, n, q.installed.keys, q.installed, q.requested, q.available, requestedOnly)
    {
      var q :- QueryContainer();
      r := CompareInstalled(q.installed, q.requested, q.available, requestedOnly);
    }

    /** The loop of `check_updatable_packages`: `comparison` starts empty and
        grows by one row per listed package; on the ValueError it keeps the
        rows gathered so far. */
    method CompareInstalled(inst: Packages, req: Packages, avail: Packages, requestedOnly: bool)
      returns (r: Result<seq<Comparison>>)
      modifies this`comparison
      ensures r.Err? <==> UpdatableNames(inst.keys, inst, req, avail, requestedOnly).Err?
      ensures r.Err? ==> r.error == UpdatableNames(inst.keys, inst, req, avail, requestedOnly).error
      ensures r.Err? ==> exists n :: FailsAt(comparison, n, inst.keys, inst, req, avail, requestedOnly)
      ensures r.Ok? ==>
                && comparison == r.value
                && Describes(r.value, UpdatableNames(inst.keys, inst, req, avail, requestedOnly).value, inst, avail)
    {
      comparison := [];
      ghost var names: seq<string> := [];
      var i := 0;
      while i < |inst.keys|
        invariant 0 <= i <= |inst.keys|
        invariant UpdatableNames(inst.keys[..i], inst, req, avail, requestedOnly) == Ok(names)
        invariant Describes(comparison, names, inst, avail)
      {
        var pkg := inst.keys[i];
        var row := ComparePackage(pkg, inst, req, avail, requestedOnly);
        if row.Err? {
          FailureAt(comparison, names, i, inst.keys, inst, req, avail, requestedOnly);
          return Err(row.error);
        }
        TakeNext(inst.keys, i);
        UpdatableNamesStep(inst.keys[..i], pkg, inst, req, avail, requestedOnly);
        if row.value.Some? {
          DescribesAppend(comparison, names, row.value.value, inst, avail);
          comparison := comparison + [row.value.value];
          names := names + [pkg];
        }
        i := i + 1;
      }
      TakeAll(inst.keys);
      r := Ok(comparison);
    }
  }
}
