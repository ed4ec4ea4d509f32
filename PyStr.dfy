/** The handful of Python `str` operations the scripts rely on, written out
    with the exact Python semantics (which pieces are kept, which occurrence
    is found, what is returned when nothing is found). */
module PyStr {
  import opened Exceptions
  import opened SeqFacts

  /** `s.startswith(p)` */
  predicate StartsWith(s: string, p: string) {
    |p| <= |s| && s[..|p|] == p
  }

  /** `sub in s` */
  predicate Occurs(s: string, sub: string) {
    exists i :: 0 <= i <= |s| && StartsWith(s[i..], sub)
  }

  /** `c.isdigit()`, restricted to the ASCII digits. */
  predicate IsDigit(c: char) {
    '0' <= c <= '9'
  }

  /** `c.isspace()`: the characters `str.split()` and the regex `\s` treat as
      whitespace. */
  predicate IsSpace(c: char) {
    var n := c as int;
    || 9 <= n <= 13 || 28 <= n <= 32 || n == 0x85 || n == 0xA0 || n == 0x1680
    || 0x2000 <= n <= 0x200A || n == 0x2028 || n == 0x2029 || n == 0x202F
    || n == 0x205F || n == 0x3000
  }

  /** The characters at which `str.splitlines()` ends a line. */
  predicate IsLineBoundary(c: char) {
    var n := c as int;
    10 <= n <= 13 || 28 <= n <= 30 || n == 0x85 || n == 0x2028 || n == 0x2029
  }

  // ---------------------------------------------------------------------------
  // Runs of characters of one class

  /** Length of the longest prefix of `s` whose characters all have class `k`. */
  function RunLength(s: string, cls: char -> nat, k: nat): (n: nat)
    ensures n <= |s|
    ensures forall i :: 0 <= i < n ==> cls(s[i]) == k
    ensures n < |s| ==> cls(s[n]) != k
  {
    if s == [] || cls(s[0]) != k then 0 else 1 + RunLength(s[1..], cls, k)
  }

  /** The maximal runs of characters that share one non-zero class, in order of
      appearance; characters of class 0 only separate runs.  Both `str.split()`
      and a `re.findall` over alternated character-class repetitions scan a
      string this way. */
  function Runs(s: string, cls: char -> nat): (r: seq<string>)
    ensures forall j :: 0 <= j < |r| ==> r[j] != [] && cls(r[j][0]) != 0
    ensures forall j, i :: 0 <= j < |r| && 0 <= i < |r[j]| ==> cls(r[j][i]) == cls(r[j][0])
    decreases |s|
  {
    if s == [] then []
    else if cls(s[0]) == 0 then Runs(s[1..], cls)
    else
      var n := RunLength(s, cls, cls(s[0]));
      [s[..n]] + Runs(s[n..], cls)
  }

  lemma {:induction false} RunLengthAppend(a: string, b: string, cls: char -> nat, k: nat)
    requires RunLength(a, cls, k) < |a| || b == [] || cls(b[0]) != k
    ensures RunLength(a + b, cls, k) == RunLength(a, cls, k)
    decreases |a|
  {
    if a == [] {
    } else {
      assert (a + b)[0] == a[0];
      if cls(a[0]) == k {
        assert (a + b)[1..] == a[1..] + b;
        RunLengthAppend(a[1..], b, cls, k);
      }
    }
  }

  /** Splitting a concatenation where the two halves cannot share a run
      splits each half on its own. */
  lemma {:induction false} RunsAppend(a: string, b: string, cls: char -> nat)
    requires a == [] || b == [] || cls(a[|a| - 1]) == 0 || cls(a[|a| - 1]) != cls(b[0])
    ensures Runs(a + b, cls) == Runs(a, cls) + Runs(b, cls)
    decreases |a|
  {
    if a == [] {
      AppendEmpty(b);
    } else if b == [] {
      AppendEmpty(a);
      AppendEmpty(Runs(a, cls));
    } else {
      var s := a + b;
      ConsAppend(a, b);
      if cls(a[0]) == 0 {
        RunsAppend(a[1..], b, cls);
      } else {
        var k := cls(a[0]);
        var n := RunLength(a, cls, k);
        RunLengthAppend(a, b, cls, k);
        CutInFront(a, b, n);
        AppendAssoc([a[..n]], Runs(a[n..], cls), Runs(b, cls));
        if n < |a| {
          RunsAppend(a[n..], b, cls);
        } else {
          assert a[n..] == [];
          AppendEmpty(b);
          AppendEmpty([a[..n]]);
          assert cls(a[|a| - 1]) == k;
          assert Runs(a[n..], cls) == [];
        }
      }
    }
  }

  /** A class-0 character between two strings separates their runs. */
  lemma RunsSeparator(a: string, c: char, b: string, cls: char -> nat)
    requires cls(c) == 0
    ensures Runs(a + [c] + b, cls) == Runs(a, cls) + Runs(b, cls)
  {
    RunsAppend(a, [c] + b, cls);
    assert a + ([c] + b) == a + [c] + b;
    assert ([c] + b)[1..] == b;
  }

  /** Leading class-0 characters are skipped. */
  lemma {:induction false} RunsSkipSeparators(s: string, n: nat, cls: char -> nat)
    requires n <= |s|
    requires forall i :: 0 <= i < n ==> cls(s[i]) == 0
    ensures Runs(s, cls) == Runs(s[n..], cls)
  {
    if n > 0 {
      RunsSkipSeparators(s[1..], n - 1, cls);
      assert s[1..][n - 1..] == s[n..];
    }
  }

  /** A non-empty string of one non-zero class is a single run. */
  lemma {:induction false} RunsOfUniform(s: string, cls: char -> nat)
    requires s != [] && cls(s[0]) != 0
    requires forall i :: 0 <= i < |s| ==> cls(s[i]) == cls(s[0])
    ensures Runs(s, cls) == [s]
  {
    RunLengthUniform(s, cls, cls(s[0]));
    var n := RunLength(s, cls, cls(s[0]));
    assert s[..n] == s;
    assert s[n..] == [];
  }

  // ---------------------------------------------------------------------------
  // split(sep), split(), splitlines()

  function SpaceClass(c: char): nat {
    if IsSpace(c) then 0 else 1
  }

  /** `s.split()`: the maximal runs of non-whitespace characters, with no
      empty pieces. */
  function SplitWs(s: string): (r: seq<string>)
    ensures forall j :: 0 <= j < |r| ==> r[j] != []
    ensures forall j, i :: 0 <= j < |r| && 0 <= i < |r[j]| ==> !IsSpace(r[j][i])
  {
    var r := Runs(s, SpaceClass);
    assert forall j, i :: 0 <= j < |r| && 0 <= i < |r[j]| ==> SpaceClass(r[j][i]) == SpaceClass(r[j][0]);
    r
  }

  /** `sep.join(pieces)` */
  function Join(pieces: seq<string>, sep: string): string {
    if pieces == [] then ""
    else if |pieces| == 1 then pieces[0]
    else pieces[0] + sep + Join(pieces[1..], sep)
  }

  /** `s.split(sep)` for a one-character separator: empty pieces are kept. */
  function Split(s: string, sep: char): (r: seq<string>)
    ensures |r| >= 1
    ensures forall j :: 0 <= j < |r| ==> sep !in r[j]
  {
    if s == [] then [""]
    else
      var rest := Split(s[1..], sep);
      if s[0] == sep then [""] + rest
      else [[s[0]] + rest[0]] + rest[1..]
  }

  /** The pieces of `s.split(sep)`, re-joined with `sep`, give back `s`. */
  lemma {:induction false} JoinSplit(s: string, sep: char)
    ensures Join(Split(s, sep), [sep]) == s
  {
    if s != [] {
      var rest := Split(s[1..], sep);
      JoinSplit(s[1..], sep);
      if s[0] != sep {
        var r := Split(s, sep);
        assert r[1..] == rest[1..];
        if |rest| == 1 {
          assert Join(r, [sep]) == [s[0]] + rest[0];
        } else {
          assert Join(rest, [sep]) == rest[0] + [sep] + Join(rest[1..], [sep]);
        }
      }
    }
  }

  /** Splitting pieces that were joined with `sep`, none of which contains
      `sep`, gives back the pieces. */
  lemma {:induction false} SplitJoin(pieces: seq<string>, sep: char)
    requires |pieces| >= 1
    requires forall j :: 0 <= j < |pieces| ==> sep !in pieces[j]
    ensures Split(Join(pieces, [sep]), sep) == pieces
    decreases |pieces|, |pieces[0]|
  {
    var p := pieces[0];
    if p == [] {
      if |pieces| > 1 {
        var s := Join(pieces, [sep]);
        assert s == [sep] + Join(pieces[1..], [sep]);
        assert s[1..] == Join(pieces[1..], [sep]);
        SplitJoin(pieces[1..], sep);
        assert pieces == [""] + pieces[1..];
      }
    } else {
      var tail := [p[1..]] + pieces[1..];
      forall j | 0 <= j < |tail| ensures sep !in tail[j] {
        if j == 0 {
          assert forall i :: 0 <= i < |p[1..]| ==> p[1..][i] == p[i + 1];
        } else {
          assert tail[j] == pieces[j];
        }
      }
      SplitJoin(tail, sep);
      var s := Join(pieces, [sep]);
      assert tail[1..] == pieces[1..];
      assert s == [p[0]] + Join(tail, [sep]) by {
        if |pieces| == 1 {
          assert p == [p[0]] + p[1..];
        } else {
          assert p == [p[0]] + p[1..];
          assert s == p + [sep] + Join(pieces[1..], [sep]);
          assert Join(tail, [sep]) == p[1..] + [sep] + Join(pieces[1..], [sep]);
        }
      }
      assert s[0] == p[0] && s[1..] == Join(tail, [sep]);
      assert p[0] != sep;
      assert [p[0]] + p[1..] == p;
      assert pieces == [p] + pieces[1..];
    }
  }

  /** Text up to the first `sep` is the first piece; the rest is split on. */
  lemma {:induction false} SplitCons(a: string, sep: char, b: string)
    requires sep !in a
    ensures Split(a + [sep] + b, sep) == [a] + Split(b, sep)
  {
    var s := a + [sep] + b;
    if a == [] {
      assert s == [sep] + b;
      assert s[1..] == b;
    } else {
      assert s[1..] == a[1..] + [sep] + b;
      SplitCons(a[1..], sep, b);
      assert [a[0]] + a[1..] == a;
    }
  }

  /** The first piece of `s.split(sep)` is the text before the first `sep`. */
  lemma SplitFirstPiece(s: string, sep: char)
    ensures StartsWith(s, Split(s, sep)[0])
    ensures Split(s, sep)[0] == s || s[|Split(s, sep)[0]|] == sep
  {
    var r := Split(s, sep);
    JoinSplit(s, sep);
    if |r| > 1 {
      assert s == r[0] + [sep] + Join(r[1..], [sep]);
      assert s[..|r[0]|] == r[0];
    }
  }

  /** The last piece of `s.split(sep)` is the text after the last `sep`. */
  lemma {:induction false} SplitLastPiece(s: string, sep: char)
    ensures var last := Split(s, sep)[|Split(s, sep)| - 1];
            && |last| <= |s| && s[|s| - |last|..] == last
            && (|last| == |s| || s[|s| - |last| - 1] == sep)
  {
    if s != [] {
      var rest := Split(s[1..], sep);
      SplitLastPiece(s[1..], sep);
      var r := Split(s, sep);
      var last := r[|r| - 1];
      if s[0] != sep && |rest| == 1 {
        JoinSplit(s[1..], sep);
        assert last == [s[0]] + s[1..] == s;
      } else {
        assert last == rest[|rest| - 1];
        assert s[1..][|s[1..]| - |last|..] == s[|s| - |last|..];
        if |rest| > 1 {
          // `sep` occurs in s[1..] but not in its last piece
          JoinSplit(s[1..], sep);
          assert s[1..] == rest[0] + [sep] + Join(rest[1..], [sep]);
          assert s[1..][|rest[0]|] == sep;
          assert |last| < |s[1..]|;
        }
        if |last| < |s[1..]| {
          assert s[1..][|s[1..]| - |last| - 1] == s[|s| - |last| - 1];
        }
      }
    }
  }

  /** Words without whitespace, joined by single spaces, are split back
      into the same words by `split()`. */
  lemma {:induction false} SplitWsJoin(words: seq<string>)
    requires forall j :: 0 <= j < |words| ==> words[j] != []
    requires forall j, i :: 0 <= j < |words| && 0 <= i < |words[j]| ==> !IsSpace(words[j][i])
    ensures SplitWs(Join(words, " ")) == words
  {
    if words != [] {
      var w := words[0];
      forall i | 0 <= i < |w| ensures SpaceClass(w[i]) == SpaceClass(w[0]) {
        assert !IsSpace(words[0][i]) && !IsSpace(words[0][0]);
      }
      RunsOfUniform(w, SpaceClass);
      if |words| > 1 {
        var rest := words[1..];
        forall j, i | 0 <= j < |rest| && 0 <= i < |rest[j]| ensures !IsSpace(rest[j][i]) {
          assert rest[j] == words[j + 1];
        }
        SplitWsJoin(rest);
        RunsSeparator(w, ' ', Join(words[1..], " "), SpaceClass);
        assert Join(words, " ") == w + [' '] + Join(words[1..], " ");
        assert words == [w] + words[1..];
      }
    }
  }

  function LineClass(c: char): nat {
    if IsLineBoundary(c) then 0 else 1
  }

  /** `s.splitlines()`: lines without their terminators; a terminator at the
      very end does not start an empty last line, and `\r\n` ends one line. */
  function SplitLines(s: string): (r: seq<string>)
    ensures forall j, i :: 0 <= j < |r| && 0 <= i < |r[j]| ==> !IsLineBoundary(r[j][i])
    decreases |s|
  {
    if s == [] then []
    else
      var n := RunLength(s, LineClass, 1);
      if n == |s| then [s]
      else
        var skip := if s[n] == '\r' && n + 1 < |s| && s[n + 1] == '\n' then 2 else 1;
        [s[..n]] + SplitLines(s[n + skip..])
  }

  /** The text of a file written one line at a time, each line followed by `\n`. */
  function UnlinesNewline(lines: seq<string>): string {
    if lines == [] then "" else lines[0] + "\n" + UnlinesNewline(lines[1..])
  }

  /** A line without boundaries followed by `\n` is read as that one line. */
  lemma SplitLinesCons(l: string, rest: string)
    requires forall i :: 0 <= i < |l| ==> !IsLineBoundary(l[i])
    ensures SplitLines(l + "\n" + rest) == [l] + SplitLines(rest)
  {
    var s := l + "\n" + rest;
    assert s == l + ("\n" + rest);
    RunLengthUniform(l, LineClass, 1);
    RunLengthAppend(l, "\n" + rest, LineClass, 1);
    var n := |l|;
    assert s[n] == '\n';
    assert s[..n] == l;
    assert s[n + 1..] == rest;
  }

  /** Lines written with a `\n` after each are read back by `splitlines()`
      unchanged, as long as none contains a line boundary. */
  lemma {:induction false} SplitLinesUnlines(lines: seq<string>)
    requires forall j, i :: 0 <= j < |lines| && 0 <= i < |lines[j]| ==> !IsLineBoundary(lines[j][i])
    ensures SplitLines(UnlinesNewline(lines)) == lines
  {
    if lines != [] {
      SplitLinesCons(lines[0], UnlinesNewline(lines[1..]));
      SplitLinesUnlines(lines[1..]);
    }
  }

  lemma {:induction false} RunLengthUniform(s: string, cls: char -> nat, k: nat)
    requires forall i :: 0 <= i < |s| ==> cls(s[i]) == k
    ensures RunLength(s, cls, k) == |s|
  {
    if s != [] {
      RunLengthUniform(s[1..], cls, k);
    }
  }

  // ---------------------------------------------------------------------------
  // rfind, replace

  /** The first index of a line that starts with `prefix` (the first line
      a `line.startswith(prefix)` filter keeps), if any. */
  function FirstWithPrefix(lines: seq<string>, prefix: string): (r: Option<nat>)
    ensures r.None? <==> forall j :: 0 <= j < |lines| ==> !StartsWith(lines[j], prefix)
    ensures r.Some? ==> r.value < |lines| && StartsWith(lines[r.value], prefix)
    ensures r.Some? ==> forall j :: 0 <= j < r.value ==> !StartsWith(lines[j], prefix)
  {
    if lines == [] then None
    else if StartsWith(lines[0], prefix) then Some(0)
    else
      match FirstWithPrefix(lines[1..], prefix)
      case None => None
      case Some(i) => Some(i + 1)
  }

  /** `s.rfind(c)`: the index of the last `c`, or -1 when there is none. */
  function RFind(s: string, c: char): (r: int)
    ensures -1 <= r < |s|
    ensures r == -1 <==> c !in s
    ensures r >= 0 ==> s[r] == c && c !in s[r + 1..]
  {
    if s == [] then -1
    else if s[|s| - 1] == c then |s| - 1
    else
      var r := RFind(s[..|s| - 1], c);
      assert s == s[..|s| - 1] + [s[|s| - 1]];
      assert r >= 0 ==> s[r + 1..] == s[..|s| - 1][r + 1..] + [s[|s| - 1]];
      r
  }

  /** `s.replace(pat, rep)`: every non-overlapping occurrence of `pat`,
      leftmost first, is replaced; an empty `pat` matches between every two
      characters and at both ends. */
  function Replace(s: string, pat: string, rep: string): string
    decreases |s|
  {
    if pat == [] then
      if s == [] then rep else rep + [s[0]] + Replace(s[1..], pat, rep)
    else if StartsWith(s, pat) then rep + Replace(s[|pat|..], pat, rep)
    else if s == [] then []
    else [s[0]] + Replace(s[1..], pat, rep)
  }

  /** A prefix in which no occurrence of `pat` starts is copied unchanged. */
  lemma {:induction false} ReplaceSkip(a: string, t: string, pat: string, rep: string)
    requires pat != []
    requires forall i :: 0 <= i < |a| ==> !StartsWith((a + t)[i..], pat)
    ensures Replace(a + t, pat, rep) == a + Replace(t, pat, rep)
    decreases |a|
  {
    if a != [] {
      var s := a + t;
      var a' := a[1..];
      ConsAppend(a, t);
      DropNone(s);
      assert !StartsWith(s[0..], pat);
      assert Replace(s, pat, rep) == [s[0]] + Replace(a' + t, pat, rep);
      forall i | 0 <= i < |a'| ensures !StartsWith((a' + t)[i..], pat) {
        SuffixShift(a, t, i);
      }
      ReplaceSkip(a', t, pat, rep);
      ConsAppend(a, Replace(t, pat, rep));
    } else {
      AppendEmpty(t);
    }
  }


  /** A string in which `pat` does not occur is left as it is. */
  lemma ReplaceAbsent(s: string, pat: string, rep: string)
    requires pat != [] && !Occurs(s, pat)
    ensures Replace(s, pat, rep) == s
  {
    forall i | 0 <= i < |s| ensures !StartsWith((s + "")[i..], pat) {
      assert (s + "")[i..] == s[i..];
    }
    ReplaceSkip(s, "", pat, rep);
    assert s + "" == s;
  }

  /** Replacing a one-character pattern is splitting on it and joining the
      pieces with the replacement: every occurrence is replaced. */
  lemma {:induction false} ReplaceCharIsSplitJoin(s: string, c: char, rep: string)
    ensures Replace(s, [c], rep) == Join(Split(s, c), rep)
  {
    if s != [] {
      ReplaceCharIsSplitJoin(s[1..], c, rep);
      var rest := Split(s[1..], c);
      if s[0] == c {
        assert StartsWith(s, [c]);
        assert Join(Split(s, c), rep) == "" + rep + Join(rest, rep);
      } else {
        assert !StartsWith(s, [c]);
        var r := Split(s, c);
        assert r[1..] == rest[1..];
        if |rest| == 1 {
          assert Join(r, rep) == [s[0]] + rest[0];
        } else {
          assert Join(rest, rep) == rest[0] + rep + Join(rest[1..], rep);
        }
      }
    }
  }
}
