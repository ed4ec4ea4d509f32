/** Merging the per-architecture tags of one image: the tags saved for each
    architecture prefix are read back without their prefix, every tag is
    pulled once per prefix, and a manifest command is built for it. */
module MergeTags {
  import opened Exceptions
  import opened PyStr
  import opened SeqFacts

  /** Reading a file of the tags directory: its text, or None when the file
      does not exist. */
  type ReadFile = string -> Option<string>

  /** Running `docker pull ref`: whether it succeeded. */
  type Pull = string -> bool

  /** `f"{tags_prefix}-{short_image_name}.txt"` */
  function TagsFileName(prefix: string, shortImageName: string): string {
    prefix + "-" + shortImageName + ".txt"
  }

  /** `tag.replace(tags_prefix + "-", "")` */
  function StripPrefix(tag: string, prefix: string): string {
    Replace(tag, prefix + "-", "")
  }

  /** `tag.replace(":", f":{tags_prefix}-")` */
  function PullRef(tag: string, prefix: string): string {
    Replace(tag, ":", ":" + prefix + "-")
  }

  /** The tags of one file, each without `prefix-`. */
  function Stripped(lines: seq<string>, prefix: string): (r: seq<string>)
    ensures |r| == |lines|
    ensures forall i :: 0 <= i < |r| ==> r[i] == StripPrefix(lines[i], prefix)
  {
    seq(|lines|, i requires 0 <= i < |lines| => StripPrefix(lines[i], prefix))
  }

  /** `all_tags` after reading every prefix's file, in prefix order, or the
      error for the first file that is missing. */
  function AllTags(prefixes: seq<string>, shortImageName: string, read: ReadFile): Result<seq<string>>
    decreases |prefixes|
  {
    if prefixes == [] then Ok([])
    else
      var tags :- AllTags(prefixes[..|prefixes| - 1], shortImageName, read);
      var more :- FileTags(prefixes[|prefixes| - 1], shortImageName, read);
      Ok(tags + more)
  }

  /** The tags of one prefix's file, or the error when it is missing. */
  function FileTags(prefix: string, shortImageName: string, read: ReadFile): (r: Result<seq<string>>)
    ensures r.Err? <==> read(TagsFileName(prefix, shortImageName)).None?
    ensures r.Err? ==> r.error == FileNotFound(TagsFileName(prefix, shortImageName))
    ensures r.Ok? ==> r.value == Stripped(SplitLines(read(TagsFileName(prefix, shortImageName)).value), prefix)
  {
    var name := TagsFileName(prefix, shortImageName);
    match read(name)
    case None => Err(FileNotFound(name))
    case Some(text) => Ok(Stripped(SplitLines(text), prefix))
  }

  /** The total number of lines in the prefix files that exist. */
  function TotalLines(prefixes: seq<string>, shortImageName: string, read: ReadFile): nat
    decreases |prefixes|
  {
    if prefixes == [] then 0
    else
      var prefix := prefixes[|prefixes| - 1];
      TotalLines(prefixes[..|prefixes| - 1], shortImageName, read)
        + match read(TagsFileName(prefix, shortImageName))
          case None => 0
          case Some(text) => |SplitLines(text)|
  }

  /** Tags are not deduplicated: there are as many as lines read. */
  lemma {:induction false} AllTagsLength(prefixes: seq<string>, shortImageName: string, read: ReadFile)
    requires AllTags(prefixes, shortImageName, read).Ok?
    ensures |AllTags(prefixes, shortImageName, read).value| == TotalLines(prefixes, shortImageName, read)
    decreases |prefixes|
  {
    if prefixes != [] {
      SplitLast(prefixes);
      AllTagsStep(prefixes[..|prefixes| - 1], prefixes[|prefixes| - 1], shortImageName, read);
      AllTagsLength(prefixes[..|prefixes| - 1], shortImageName, read);
    }
  }

  /** Reading fails exactly when some prefix file is missing, and then with
      the name of the first missing one. */
  lemma {:induction false} AllTagsFails(prefixes: seq<string>, shortImageName: string, read: ReadFile)
    ensures AllTags(prefixes, shortImageName, read).Err? <==>
              exists i :: 0 <= i < |prefixes| && read(TagsFileName(prefixes[i], shortImageName)).None?
    ensures AllTags(prefixes, shortImageName, read).Err? ==>
              exists i :: 0 <= i < |prefixes| && read(TagsFileName(prefixes[i], shortImageName)).None?
                && (forall j :: 0 <= j < i ==> read(TagsFileName(prefixes[j], shortImageName)).Some?)
                && AllTags(prefixes, shortImageName, read).error == FileNotFound(TagsFileName(prefixes[i], shortImageName))
    decreases |prefixes|
  {
    if prefixes != [] {
      var init := prefixes[..|prefixes| - 1];
      AllTagsFails(init, shortImageName, read);
      forall i | 0 <= i < |init| ensures init[i] == prefixes[i] { }
    }
  }

  /** Adding a prefix at the end: an earlier error stays, otherwise that
      file's tags or its error follow. */
  lemma AllTagsStep(init: seq<string>, x: string, shortImageName: string, read: ReadFile)
    ensures AllTags(init, shortImageName, read).Err? ==>
              AllTags(init + [x], shortImageName, read) == AllTags(init, shortImageName, read)
    ensures AllTags(init, shortImageName, read).Ok? && FileTags(x, shortImageName, read).Err? ==>
              AllTags(init + [x], shortImageName, read) == Err(FileTags(x, shortImageName, read).error)
    ensures AllTags(init, shortImageName, read).Ok? && FileTags(x, shortImageName, read).Ok? ==>
              AllTags(init + [x], shortImageName, read)
                == Ok(AllTags(init, shortImageName, read).value + FileTags(x, shortImageName, read).value)
  {
    DropLast(init, x);
  }

  /** The tags of a concatenation of prefix lists are the tags of each list,
      in order: files are read in prefix order. */
  lemma {:induction false} AllTagsAppend(a: seq<string>, b: seq<string>, shortImageName: string, read: ReadFile)
    requires AllTags(a, shortImageName, read).Ok? && AllTags(b, shortImageName, read).Ok?
    ensures AllTags(a + b, shortImageName, read)
              == Ok(AllTags(a, shortImageName, read).value + AllTags(b, shortImageName, read).value)
    decreases |b|
  {
    if b == [] {
      AppendEmpty(a);
      AppendEmpty(AllTags(a, shortImageName, read).value);
    } else {
      var b', x := b[..|b| - 1], b[|b| - 1];
      SplitLast(b);
      AppendAssoc(a, b', [x]);
      AllTagsStep(b', x, shortImageName, read);
      AllTagsAppend(a, b', shortImageName, read);
      AllTagsStep(a + b', x, shortImageName, read);
      AppendAssoc(AllTags(a, shortImageName, read).value, AllTags(b', shortImageName, read).value,
                  FileTags(x, shortImageName, read).value);
    }
  }

  /** Stripping the prefix from a saved tag `name:prefix-rest` leaves
      `name:rest`, when `prefix-` occurs nowhere else and no part holds a
      colon. */
  lemma StripPrefixOfTag(name: string, prefix: string, rest: string)
    requires ':' !in name && ':' !in prefix && ':' !in rest
    requires !Occurs(name, prefix + "-") && !Occurs(rest, prefix + "-")
    ensures StripPrefix(name + ":" + prefix + "-" + rest, prefix) == name + ":" + rest
  {
    var pat := prefix + "-";
    var a := name + ":";
    var t := pat + rest;
    assert name + ":" + prefix + "-" + rest == a + t;
    NoMatchBeforeColon(name, pat, t);
    ReplaceSkip(a, t, pat, "");
    ReplaceFirst(pat, rest);
  }

  /** No occurrence of a colon-free `pat` starts in `name + ":"` when none
      lies in `name`. */
  lemma NoMatchBeforeColon(name: string, pat: string, t: string)
    requires pat != [] && ':' !in pat && !Occurs(name, pat)
    ensures forall i :: 0 <= i < |name + ":"| ==> !StartsWith((name + ":" + t)[i..], pat)
  {
    var s := name + ":" + t;
    forall i | 0 <= i < |name + ":"| ensures !StartsWith(s[i..], pat) {
      if i + |pat| <= |name| {
        assert !StartsWith(name[i..], pat);
        assert name[i..][..|pat|] == s[i..][..|pat|];
      } else if |pat| <= |s[i..]| {
        assert s[i..][..|pat|][|name| - i] == ':';
      }
    }
  }

  /** An input that starts with the pattern loses it, and nothing else when
      the pattern does not occur in the remainder. */
  lemma ReplaceFirst(pat: string, rest: string)
    requires pat != [] && !Occurs(rest, pat)
    ensures Replace(pat + rest, pat, "") == rest
  {
    var t := pat + rest;
    assert StartsWith(t, pat);
    assert t[|pat|..] == rest;
    ReplaceAbsent(rest, pat, "");
  }

  /** Rewriting the colon of `name:rest` for a prefix gives `name:prefix-rest`. */
  lemma PullRefOfTag(name: string, prefix: string, rest: string)
    requires ':' !in name && ':' !in rest
    ensures PullRef(name + ":" + rest, prefix) == name + ":" + prefix + "-" + rest
  {
    var s := name + ":" + rest;
    ReplaceCharIsSplitJoin(s, ':', ":" + prefix + "-");
    SplitCons(name, ':', rest);
    SplitJoin([rest], ':');
    assert Join([rest], ":") == rest;
  }

  /** Pulling a stored tag for its own prefix asks for exactly the tag that
      was saved. */
  lemma PullRestoresSavedTag(name: string, prefix: string, rest: string)
    requires ':' !in name && ':' !in prefix && ':' !in rest
    requires !Occurs(name, prefix + "-") && !Occurs(rest, prefix + "-")
    ensures var saved := name + ":" + prefix + "-" + rest;
            PullRef(StripPrefix(saved, prefix), prefix) == saved
  {
    StripPrefixOfTag(name, prefix, rest);
    PullRefOfTag(name, prefix, rest);
  }

  /** The pulls for one tag: one per prefix, in prefix order. */
  function PullsOf(tag: string, prefixes: seq<string>): (r: seq<string>)
    ensures |r| == |prefixes|
    ensures forall j :: 0 <= j < |r| ==> r[j] == PullRef(tag, prefixes[j])
  {
    seq(|prefixes|, j requires 0 <= j < |prefixes| => PullRef(tag, prefixes[j]))
  }

  /** Every pull the second loop issues, tag by tag. */
  function PullsFor(tags: seq<string>, prefixes: seq<string>): seq<string>
    decreases |tags|
  {
    if tags == [] then [] else PullsFor(tags[..|tags| - 1], prefixes) + PullsOf(tags[|tags| - 1], prefixes)
  }

  /** Exactly one pull per tag and prefix: pull number
      `Cell(i, j, |prefixes|)`, that is `i * |prefixes| + j`, is tag `i`
      rewritten for prefix `j`. */
  lemma PullsForLayout(tags: seq<string>, prefixes: seq<string>)
    ensures |PullsFor(tags, prefixes)| == |tags| * |prefixes|
    ensures forall i, j {:trigger Cell(i, j, |prefixes|)} :: 0 <= i < |tags| && 0 <= j < |prefixes| ==>
              Cell(i, j, |prefixes|) < |PullsFor(tags, prefixes)| &&
              PullsFor(tags, prefixes)[Cell(i, j, |prefixes|)] == PullRef(tags[i], prefixes[j])
  {
    var rows := PullRows(tags, prefixes);
    PullsForIsFlatten(tags, prefixes);
    assert forall m :: 0 <= m < |rows| ==> |rows[m]| == |prefixes|;
    FlattenLength(rows, |prefixes|);
    forall i, j {:trigger Cell(i, j, |prefixes|)} | 0 <= i < |tags| && 0 <= j < |prefixes|
      ensures Cell(i, j, |prefixes|) < |PullsFor(tags, prefixes)|
      ensures PullsFor(tags, prefixes)[Cell(i, j, |prefixes|)] == PullRef(tags[i], prefixes[j])
    {
      PullCell(tags, prefixes, i, j);
    }
  }

  lemma PullCell(tags: seq<string>, prefixes: seq<string>, i: nat, j: nat)
    requires i < |tags| && j < |prefixes|
    ensures Cell(i, j, |prefixes|) < |PullsFor(tags, prefixes)|
    ensures PullsFor(tags, prefixes)[Cell(i, j, |prefixes|)] == PullRef(tags[i], prefixes[j])
  {
    var rows := PullRows(tags, prefixes);
    PullsForIsFlatten(tags, prefixes);
    assert forall m :: 0 <= m < |rows| ==> |rows[m]| == |prefixes|;
    FlattenCell(rows, |prefixes|, i, j);
  }

  /** Where cell `j` of row `i` lies in rows of `n` cells laid end to end. */
  function Cell(i: nat, j: nat, n: nat): nat {
    i * n + j
  }

  /** The pulls of each tag, one row per tag. */
  function PullRows(tags: seq<string>, prefixes: seq<string>): (rows: seq<seq<string>>)
    ensures |rows| == |tags|
    ensures forall i :: 0 <= i < |tags| ==> rows[i] == PullsOf(tags[i], prefixes)
  {
    seq(|tags|, i requires 0 <= i < |tags| => PullsOf(tags[i], prefixes))
  }

  /** The second loop's pulls are its rows laid end to end. */
  lemma {:induction false} PullsForIsFlatten(tags: seq<string>, prefixes: seq<string>)
    ensures PullsFor(tags, prefixes) == Flatten(PullRows(tags, prefixes))
    decreases |tags|
  {
    if tags != [] {
      var k := |tags| - 1;
      PullsForIsFlatten(tags[..k], prefixes);
      var rows := PullRows(tags, prefixes);
      assert rows[..k] == PullRows(tags[..k], prefixes);
    }
  }

  /** The pulls for one more tag at the end follow the earlier ones. */
  lemma PullsForLast(init: seq<string>, last: string, prefixes: seq<string>)
    ensures PullsFor(init + [last], prefixes) == PullsFor(init, prefixes) + PullsOf(last, prefixes)
  {
    DropLast(init, last);
  }

  /** The manifest command built for a tag (and never run). */
  function ManifestArgs(tag: string): seq<string> {
    ["manifest", "create", "--amend", tag, Replace(tag, ":", ":x86_64-"), Replace(tag, ":", ":aarch64-")]
  }

  /** The two images the manifest joins are the tag's pulls for the
      `x86_64` and `aarch64` prefixes. */
  lemma ManifestJoinsPulls(tag: string)
    ensures |ManifestArgs(tag)| == 6 && ManifestArgs(tag)[..3] == ["manifest", "create", "--amend"]
    ensures ManifestArgs(tag)[3] == tag
    ensures ManifestArgs(tag)[4] == PullRef(tag, "x86_64")
    ensures ManifestArgs(tag)[5] == PullRef(tag, "aarch64")
  {
    assert ":" + "x86_64" + "-" == ":x86_64-";
    assert ":" + "aarch64" + "-" == ":aarch64-";
  }

  /** The first loop of `merge_tags`: the tags of every prefix file, read
      in prefix order, stopping at the first file that is missing. */
  method ReadAllTags(shortImageName: string, prefixes: seq<string>, read: ReadFile)
    returns (r: Result<seq<string>>)
    ensures r == AllTags(prefixes, shortImageName, read)
  {
    var allTags: seq<string> := [];
    var i := 0;
    while i < |prefixes|
      invariant 0 <= i <= |prefixes|
      invariant AllTags(prefixes[..i], shortImageName, read) == Ok(allTags)
    {
      var prefix := prefixes[i];
      TakeNext(prefixes, i);
      AllTagsStep(prefixes[..i], prefix, shortImageName, read);
      var filename := TagsFileName(prefix, shortImageName);
      var text := read(filename);
      if text.None? {
        AllTagsErrorSticks(prefixes, i + 1, shortImageName, read);
        return Err(FileNotFound(filename));
      }
      allTags := allTags + FileTags(prefix, shortImageName, read).value;
      i := i + 1;
    }
    TakeAll(prefixes);
    return Ok(allTags);
  }

  /** The second loop of `merge_tags`: every tag is pulled once per prefix
      and then gets its manifest command; a failed pull stops the run. */
  method PullAll(tags: seq<string>, prefixes: seq<string>, pull: Pull)
    returns (r: Result<()>, pulls: seq<string>, manifests: seq<seq<string>>)
    ensures pulls <= PullsFor(tags, prefixes)
    ensures forall k :: 0 <= k < |pulls| - 1 ==> pull(pulls[k])
    ensures r.Ok? <==> forall k :: 0 <= k < |PullsFor(tags, prefixes)| ==> pull(PullsFor(tags, prefixes)[k])
    ensures r.Ok? ==> pulls == PullsFor(tags, prefixes)
    ensures r.Err? ==> |pulls| > 0 && !pull(pulls[|pulls| - 1]) && r.error == CommandFailed(pulls[|pulls| - 1])
    ensures r.Ok? ==> |manifests| == |tags| && forall i :: 0 <= i < |tags| ==> manifests[i] == ManifestArgs(tags[i])
  {
    pulls, manifests := [], [];
    var t := 0;
    while t < |tags|
      invariant 0 <= t <= |tags|
      invariant pulls == PullsFor(tags[..t], prefixes)
      invariant forall k :: 0 <= k < |pulls| ==> pull(pulls[k])
      invariant |manifests| == t && forall m :: 0 <= m < t ==> manifests[m] == ManifestArgs(tags[m])
    {
      var tag := tags[t];
      PullsForStep(tags, t, prefixes);
      var j := 0;
      while j < |prefixes|
        invariant 0 <= j <= |prefixes|
        invariant pulls == PullsFor(tags[..t], prefixes) + PullsOf(tag, prefixes[..j])
        invariant forall k :: 0 <= k < |pulls| ==> pull(pulls[k])
      {
        var ref := PullRef(tag, prefixes[j]);
        PullsOfStep(tag, prefixes, j);
        AppendAssoc(PullsFor(tags[..t], prefixes), PullsOf(tag, prefixes[..j]), [ref]);
        pulls := pulls + [ref];
        if !pull(ref) {
          PullsPrefix(tags, t, prefixes, j);
          assert PullsFor(tags, prefixes)[|pulls| - 1] == ref;
          return Err(CommandFailed(ref)), pulls, manifests;
        }
        j := j + 1;
      }
      TakeAll(prefixes);
      manifests := manifests + [ManifestArgs(tag)];
      t := t + 1;
    }
    TakeAll(tags);
    r := Ok(());
  }

  /** `merge_tags`: reads every prefix file first, then pulls every tag once
      per prefix and builds its manifest command. Returns the pulls issued
      and the manifest commands built, in order. */
  method Merge(shortImageName: string, prefixes: seq<string>, read: ReadFile, pull: Pull)
    returns (r: Result<()>, pulls: seq<string>, manifests: seq<seq<string>>)
    ensures AllTags(prefixes, shortImageName, read).Err? ==>
              r == Err(AllTags(prefixes, shortImageName, read).error) && pulls == [] && manifests == []
    ensures AllTags(prefixes, shortImageName, read).Ok? ==>
              var all := PullsFor(AllTags(prefixes, shortImageName, read).value, prefixes);
              && pulls <= all
              && (r.Ok? <==> forall k :: 0 <= k < |all| ==> pull(all[k]))
              && (r.Ok? ==> pulls == all)
              && (r.Err? ==> |pulls| > 0 && !pull(pulls[|pulls| - 1]) && r.error == CommandFailed(pulls[|pulls| - 1]))
    ensures r.Ok? ==>
              var tags := AllTags(prefixes, shortImageName, read).value;
              |manifests| == |tags| && forall i :: 0 <= i < |tags| ==> manifests[i] == ManifestArgs(tags[i])
  {
    var allTags := ReadAllTags(shortImageName, prefixes, read);
    if allTags.Err? {
      return Err(allTags.error), [], [];
    }
    ghost var all := PullsFor(allTags.value, prefixes);
    r, pulls, manifests := PullAll(allTags.value, prefixes, pull);
    assert r.Ok? <==> forall k :: 0 <= k < |all| ==> pull(all[k]);
  }

  lemma {:induction false} AllTagsErrorSticks(prefixes: seq<string>, n: nat, shortImageName: string, read: ReadFile)
    requires n <= |prefixes| && AllTags(prefixes[..n], shortImageName, read).Err?
    ensures AllTags(prefixes, shortImageName, read) == AllTags(prefixes[..n], shortImageName, read)
    decreases |prefixes| - n
  {
    if n < |prefixes| {
      TakeNext(prefixes, n);
      AllTagsStep(prefixes[..n], prefixes[n], shortImageName, read);
      AllTagsErrorSticks(prefixes, n + 1, shortImageName, read);
    } else {
      TakeAll(prefixes);
    }
  }

  lemma PullsForStep(tags: seq<string>, t: nat, prefixes: seq<string>)
    requires t < |tags|
    ensures PullsFor(tags[..t + 1], prefixes) == PullsFor(tags[..t], prefixes) + PullsOf(tags[t], prefixes)
  {
    TakeNext(tags, t);
    PullsForLast(tags[..t], tags[t], prefixes);
  }

  /** The pulls of one tag for one more prefix. */
  lemma PullsOfStep(tag: string, prefixes: seq<string>, j: nat)
    requires j < |prefixes|
    ensures PullsOf(tag, prefixes[..j + 1]) == PullsOf(tag, prefixes[..j]) + [PullRef(tag, prefixes[j])]
  {
    var a, b := PullsOf(tag, prefixes[..j + 1]), PullsOf(tag, prefixes[..j]) + [PullRef(tag, prefixes[j])];
    assert |a| == |b|;
    forall m | 0 <= m < |a| ensures a[m] == b[m] {
      if m < j {
        assert prefixes[..j + 1][m] == prefixes[..j][m];
      }
    }
  }

  /** The pulls of one tag for the first prefixes come first. */
  lemma PullsOfPrefix(tag: string, prefixes: seq<string>, j: nat)
    requires j <= |prefixes|
    ensures PullsOf(tag, prefixes[..j]) <= PullsOf(tag, prefixes)
  {
    var a, b := PullsOf(tag, prefixes[..j]), PullsOf(tag, prefixes);
    forall m | 0 <= m < |a| ensures a[m] == b[m] {
      assert prefixes[..j][m] == prefixes[m];
    }
  }

  /** The pulls issued up to a failed one are a prefix of all the pulls. */
  lemma PullsPrefix(tags: seq<string>, t: nat, prefixes: seq<string>, j: nat)
    requires t < |tags| && j < |prefixes|
    ensures PullsFor(tags[..t], prefixes) + PullsOf(tags[t], prefixes[..j + 1]) <= PullsFor(tags, prefixes)
  {
    PullsForStep(tags, t, prefixes);
    PullsOfPrefix(tags[t], prefixes, j + 1);
    PrefixAfter(PullsFor(tags[..t], prefixes), PullsOf(tags[t], prefixes[..j + 1]), PullsOf(tags[t], prefixes));
    PullsForPrefixOf(tags, t + 1, prefixes);
    PrefixTrans(PullsFor(tags[..t], prefixes) + PullsOf(tags[t], prefixes[..j + 1]),
                PullsFor(tags[..t + 1], prefixes), PullsFor(tags, prefixes));
  }

  /** The pulls of the first `n` tags are a prefix of the pulls of all tags. */
  lemma {:induction false} PullsForPrefixOf(tags: seq<string>, n: nat, prefixes: seq<string>)
    requires n <= |tags|
    ensures PullsFor(tags[..n], prefixes) <= PullsFor(tags, prefixes)
    decreases |tags| - n
  {
    if n < |tags| {
      PullsForPrefixOf(tags, n + 1, prefixes);
      PullsForStep(tags, n, prefixes);
      PrefixTrans(PullsFor(tags[..n], prefixes), PullsFor(tags[..n + 1], prefixes), PullsFor(tags, prefixes));
    } else {
      TakeAll(tags);
    }
  }
}
