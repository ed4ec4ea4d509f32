/** The sort key `CondaPackageHelper.semantic_cmp` builds from a version
    string, and the ordering of those keys (Python's tuple comparison). */
module SemanticVersion {
  import opened PyStr

  /** The regex class `[A-z]`: every ASCII character from `A` to `z`, which
      also takes in `[`, `\`, `]`, `^`, `_` and the backquote. */
  predicate InLetterRange(c: char) {
    'A' <= c <= 'z'
  }

  /** 1 for `[A-z]`, 2 for `\d`, 0 for every character the key drops. */
  function VersionClass(c: char): nat {
    if InLetterRange(c) then 1 else if IsDigit(c) then 2 else 0
  }

  /** `re.findall(r"([A-z]+|\d+)", x)`: the maximal letter runs and digit runs. */
  function VersionSubstrs(x: string): seq<string> {
    Runs(x, VersionClass)
  }

  /** `my_split`: the version split at every `.`, each piece cut into runs. */
  function MySplit(version: string): seq<seq<string>> {
    var pieces := Split(version, '.');
    seq(|pieces|, i requires 0 <= i < |pieces| => VersionSubstrs(pieces[i]))
  }

  function Flatten(ss: seq<seq<string>>): seq<string> {
    if ss == [] then [] else ss[0] + Flatten(ss[1..])
  }

  /** The value of a decimal numeral, leading zeros allowed, as `int()` reads it. */
  function DecimalValue(s: string): nat {
    if s == [] then 0
    else DecimalValue(s[..|s| - 1]) * 10 + (s[|s| - 1] as int - '0' as int) % 10
  }

  /** The number `str_ord` accumulates: the code points read as base-255 digits. */
  function Base255(s: string): nat {
    if s == [] then 0 else Base255(s[..|s| - 1]) * 255 + s[|s| - 1] as int
  }

  /** A run that `int()` accepts: a non-empty string of decimal digits. */
  predicate IsNumeral(s: string) {
    s != [] && forall i :: 0 <= i < |s| ==> IsDigit(s[i])
  }

  /** `try_int` on a run: its decimal value when `int()` accepts it, its
      base-255 value otherwise. */
  function TryInt(run: string): nat {
    if IsNumeral(run) then DecimalValue(run) else Base255(run)
  }

  /** `semantic_cmp(version)`: the tuple of `try_int` values of the runs. */
  function SemanticKey(version: string): seq<int> {
    var runs := Flatten(MySplit(version));
    seq(|runs|, i requires 0 <= i < |runs| => TryInt(runs[i]))
  }

  /** `str_ord`: the accumulator loop of `semantic_cmp`. */
  method StrOrd(s: string) returns (num: nat)
    ensures num == Base255(s)
  {
    num := 0;
    var i := 0;
    while i < |s|
      invariant 0 <= i <= |s|
      invariant num == Base255(s[..i])
    {
      assert s[..i + 1][..i] == s[..i];
      num := num * 255;
      num := num + s[i] as int;
      i := i + 1;
    }
    assert s[..i] == s;
  }

  /** Python's `<` on tuples of integers: lexicographic, and a proper prefix
      is smaller than the longer tuple. */
  predicate TupleLess(a: seq<int>, b: seq<int>) {
    if a == [] then b != []
    else if b == [] then false
    else if a[0] != b[0] then a[0] < b[0]
    else TupleLess(a[1..], b[1..])
  }

  // ---------------------------------------------------------------------------
  // What the key is

  /** Splitting at `.` first changes nothing: the dots are dropped characters
      anyway, so the key is made of the runs of the whole string. */
  lemma MySplitIsRuns(version: string)
    ensures Flatten(MySplit(version)) == VersionSubstrs(version)
  {
    var pieces := Split(version, '.');
    JoinSplit(version, '.');
    RunsOfJoin(pieces);
    FlattenOfMapped(pieces);
  }

  lemma {:induction false} FlattenOfMapped(pieces: seq<string>)
    ensures Flatten(seq(|pieces|, i requires 0 <= i < |pieces| => VersionSubstrs(pieces[i])))
         == FlatRuns(pieces)
  {
    var m := seq(|pieces|, i requires 0 <= i < |pieces| => VersionSubstrs(pieces[i]));
    if pieces != [] {
      var m' := seq(|pieces[1..]|, i requires 0 <= i < |pieces[1..]| => VersionSubstrs(pieces[1..][i]));
      assert m[1..] == m';
      FlattenOfMapped(pieces[1..]);
    }
  }

  function FlatRuns(pieces: seq<string>): seq<string> {
    if pieces == [] then [] else VersionSubstrs(pieces[0]) + FlatRuns(pieces[1..])
  }

  lemma {:induction false} RunsOfJoin(pieces: seq<string>)
    ensures VersionSubstrs(Join(pieces, ".")) == FlatRuns(pieces)
  {
    if |pieces| == 1 {
      assert FlatRuns(pieces) == VersionSubstrs(pieces[0]) + [];
    } else if |pieces| > 1 {
      RunsOfJoin(pieces[1..]);
      RunsSeparator(pieces[0], '.', Join(pieces[1..], "."), VersionClass);
      assert Join(pieces, ".") == pieces[0] + ['.'] + Join(pieces[1..], ".");
    }
  }

  /** The key of a string is the `try_int` value of each of its runs. */
  lemma KeyIsRunValues(version: string)
    ensures |SemanticKey(version)| == |VersionSubstrs(version)|
    ensures forall i :: 0 <= i < |SemanticKey(version)| ==>
              SemanticKey(version)[i] == TryInt(VersionSubstrs(version)[i])
  {
    MySplitIsRuns(version);
  }

  lemma KeyOfRuns(runs: seq<string>, key: seq<int>)
    requires |key| == |runs|
    requires forall i :: 0 <= i < |runs| ==> key[i] == TryInt(runs[i])
    ensures key == seq(|runs|, i requires 0 <= i < |runs| => TryInt(runs[i]))
  {
  }

  /** Characters other than `[A-z]` and digits are dropped: they only
      separate the runs on either side of them. */
  lemma KeySeparator(a: string, c: char, b: string)
    requires VersionClass(c) == 0
    ensures SemanticKey(a + [c] + b) == SemanticKey(a) + SemanticKey(b)
  {
    KeyIsRunValues(a + [c] + b);
    KeyIsRunValues(a);
    KeyIsRunValues(b);
    RunsSeparator(a, c, b, VersionClass);
    var ka, kb := SemanticKey(a), SemanticKey(b);
    var runs := VersionSubstrs(a + [c] + b);
    assert forall i :: 0 <= i < |runs| ==> (ka + kb)[i] == TryInt(runs[i]) by {
      forall i | 0 <= i < |runs| ensures (ka + kb)[i] == TryInt(runs[i]) {
        if i < |ka| {
        } else {
          assert runs[i] == VersionSubstrs(b)[i - |ka|];
        }
      }
    }
    KeyOfRuns(runs, ka + kb);
    KeyOfRuns(runs, SemanticKey(a + [c] + b));
  }

  /** A string made only of dropped characters has the empty key. */
  lemma {:induction false} KeyOfNoRuns(s: string)
    requires forall i :: 0 <= i < |s| ==> VersionClass(s[i]) == 0
    ensures SemanticKey(s) == []
  {
    KeyIsRunValues(s);
    NoRuns(s);
  }

  lemma {:induction false} NoRuns(s: string)
    requires forall i :: 0 <= i < |s| ==> VersionClass(s[i]) == 0
    ensures VersionSubstrs(s) == []
  {
    if s != [] {
      NoRuns(s[1..]);
    }
  }

  /** A numeral's key is its integer value: `01` and `1` have the same key. */
  lemma KeyOfNumeral(s: string)
    requires IsNumeral(s)
    ensures SemanticKey(s) == [DecimalValue(s)]
  {
    assert forall i :: 0 <= i < |s| ==> VersionClass(s[i]) == VersionClass(s[0]) == 2;
    RunsOfUniform(s, VersionClass);
    KeyIsRunValues(s);
  }

  /** A run of `[A-z]` characters has its base-255 value as its key. */
  lemma KeyOfLetters(s: string)
    requires s != [] && forall i :: 0 <= i < |s| ==> InLetterRange(s[i])
    ensures SemanticKey(s) == [Base255(s)]
  {
    forall i | 0 <= i < |s| ensures VersionClass(s[i]) == VersionClass(s[0]) {
      assert InLetterRange(s[i]);
    }
    RunsOfUniform(s, VersionClass);
    assert VersionSubstrs(s) == [s];
    assert !IsDigit(s[0]);
    assert TryInt(s) == Base255(s);
    KeyIsRunValues(s);
  }

  /** Leading zeros do not change a numeral's value. */
  lemma {:induction false} DecimalLeadingZero(s: string)
    ensures DecimalValue("0" + s) == DecimalValue(s)
  {
    if s != [] {
      var t := "0" + s;
      assert t[..|t| - 1] == "0" + s[..|s| - 1];
      DecimalLeadingZero(s[..|s| - 1]);
    }
  }

  /** Two dotted numbers compare component by component as integers, so
      `1.10` sorts after `1.9`, and `1.01` has the same key as `1.1`. */
  lemma DottedNumbers(m: string, n: string)
    requires IsNumeral(m) && IsNumeral(n)
    ensures SemanticKey(m + "." + n) == [DecimalValue(m), DecimalValue(n)]
  {
    KeySeparator(m, '.', n);
    KeyOfNumeral(m);
    KeyOfNumeral(n);
    assert m + "." + n == m + ['.'] + n;
  }

  lemma DottedExample(m: string, n: string, v: string, x: nat, y: nat)
    requires IsNumeral(m) && IsNumeral(n) && v == m + "." + n
    requires DecimalValue(m) == x && DecimalValue(n) == y
    ensures SemanticKey(v) == [x, y]
  {
    DottedNumbers(m, n);
  }

  lemma ValueOfTen()
    ensures DecimalValue("10") == 10
  {
    assert "10"[..1] == "1";
  }

  lemma ValueOfZeroOne()
    ensures DecimalValue("01") == 1
  {
    DecimalLeadingZero("1");
    assert "0" + "1" == "01";
    assert "1"[..0] == "";
  }

  lemma KeyOneNine()
    ensures SemanticKey("1.9") == [1, 9]
  {
    DottedExample("1", "9", "1.9", 1, 9);
  }

  lemma KeyOneTen()
    ensures SemanticKey("1.10") == [1, 10]
  {
    ValueOfTen();
    DottedExample("1", "10", "1.10", 1, 10);
  }

  lemma KeyOneOne()
    ensures SemanticKey("1.1") == [1, 1]
  {
    DottedExample("1", "1", "1.1", 1, 1);
  }

  lemma KeyOneZeroOne()
    ensures SemanticKey("1.01") == [1, 1]
  {
    ValueOfZeroOne();
    DottedExample("1", "01", "1.01", 1, 1);
  }

  /** `1.10` sorts after `1.9`, and `1.01` has the same key as `1.1`. */
  lemma VersionExamples()
    ensures TupleLess(SemanticKey("1.9"), SemanticKey("1.10"))
    ensures SemanticKey("1.01") == SemanticKey("1.1")
  {
    KeyOneNine();
    KeyOneTen();
    KeyOneOne();
    KeyOneZeroOne();
  }

  // ---------------------------------------------------------------------------
  // The order on keys

  /** A tuple that is a proper prefix of a longer one is smaller. */
  lemma {:induction false} PrefixIsLess(a: seq<int>, b: seq<int>)
    requires |a| < |b| && b[..|a|] == a
    ensures TupleLess(a, b)
  {
    if a != [] {
      assert b[1..][..|a| - 1] == a[1..];
      PrefixIsLess(a[1..], b[1..]);
    }
  }

  lemma {:induction false} TupleLessIrreflexive(a: seq<int>)
    ensures !TupleLess(a, a)
  {
    if a != [] {
      TupleLessIrreflexive(a[1..]);
    }
  }

  lemma {:induction false} TupleLessTransitive(a: seq<int>, b: seq<int>, c: seq<int>)
    requires TupleLess(a, b) && TupleLess(b, c)
    ensures TupleLess(a, c)
  {
    if a != [] && b != [] && c != [] && a[0] == b[0] && b[0] == c[0] {
      TupleLessTransitive(a[1..], b[1..], c[1..]);
    }
  }

  /** Any two different keys are ordered one way or the other. */
  lemma {:induction false} TupleLessTotal(a: seq<int>, b: seq<int>)
    ensures a == b || TupleLess(a, b) || TupleLess(b, a)
  {
    if a != [] && b != [] && a[0] == b[0] {
      TupleLessTotal(a[1..], b[1..]);
      if a[1..] == b[1..] {
        assert a == [a[0]] + a[1..];
        assert b == [b[0]] + b[1..];
      }
    }
  }

  lemma TupleLessAsymmetric(a: seq<int>, b: seq<int>)
    requires TupleLess(a, b)
    ensures !TupleLess(b, a)
  {
    if TupleLess(b, a) {
      TupleLessTransitive(a, b, a);
      TupleLessIrreflexive(a);
    }
  }
}
