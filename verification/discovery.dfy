/**
 * Discovery of plugin directories: which source directories survive the Hidden
 * filter, the in-place removal of directories holding Errors.txt, and the
 * name-based exclusion of directories that also exist in the compiled tree.
 */
module Discovery {
  import opened Plugins
  import opened Seqs

  /** The source directories whose Hidden attribute is not set, in listing order. */
  function Visible(dirs: seq<Directory>): (r: seq<Directory>)
    ensures IsSubseq(r, dirs)
    ensures forall d :: d in r ==> !d.hidden
    ensures forall d :: d in dirs && !d.hidden ==> d in r
  {
    if dirs == [] then []
    else if dirs[0].hidden then
      var r := Visible(dirs[1..]);
      SubseqSkip(dirs[0], r, dirs[1..]);
      assert dirs == [dirs[0]] + dirs[1..];
      r
    else
      var r := [dirs[0]] + Visible(dirs[1..]);
      SubseqCons(dirs[0], Visible(dirs[1..]), dirs[1..]);
      assert dirs == [dirs[0]] + dirs[1..];
      r
  }

  /**
   * What the index loop with RemoveAt leaves: a marked directory is removed, and the
   * directory that slides into its slot is never examined because the index still
   * advances.
   */
  function SkipErrors(dirs: seq<Directory>): (r: seq<Directory>)
  {
    if dirs == [] then []
    else if !dirs[0].hasErrorsFile then [dirs[0]] + SkipErrors(dirs[1..])
    else if |dirs| == 1 then []
    else [dirs[1]] + SkipErrors(dirs[2..])
  }

  /**
   * The removal loop of discovery, on the list it mutates: an index loop that calls
   * RemoveAt(index) on a directory holding Errors.txt and then increments the index
   * anyway.
   */
  method DropErrorMarked(dirs: seq<Directory>) returns (list: seq<Directory>)
    ensures list == SkipErrors(dirs)
  {
    list := dirs;
    var index := 0;
    ghost var done: seq<Directory> := [];
    ghost var rest := dirs;
    ghost var target := SkipErrors(dirs);
    while index < |list|
      invariant list == done + rest
      invariant done + SkipErrors(rest) == target
      invariant index == |done| || (index == |done| + 1 && rest == [])
      decreases |list| + 1 - index
    {
      RemoveAtSplits(done, rest);
      SkipErrorsStep(done, rest);
      if list[index].hasErrorsFile {
        list := list[..index] + list[index + 1..];
        if |rest| > 1 {
          SlideIntoSlot(done, rest);
          done := done + [rest[1]];
          rest := rest[2..];
        } else {
          rest := [];
        }
      } else {
        done := done + [rest[0]];
        rest := rest[1..];
      }
      index := index + 1;
    }
  }

  /** How one examined slot extends the part of SkipErrors already produced. */
  lemma SkipErrorsStep(done: seq<Directory>, rest: seq<Directory>)
    requires rest != []
    ensures !rest[0].hasErrorsFile ==> (done + [rest[0]]) + SkipErrors(rest[1..]) == done + SkipErrors(rest)
    ensures rest[0].hasErrorsFile && |rest| > 1 ==>
      (done + [rest[1]]) + SkipErrors(rest[2..]) == done + SkipErrors(rest)
    ensures rest[0].hasErrorsFile && |rest| == 1 ==> done + SkipErrors(rest) == done
  {
    if !rest[0].hasErrorsFile {
      ConsShift(done, rest[0], SkipErrors(rest[1..]));
    } else if |rest| > 1 {
      ConsShift(done, rest[1], SkipErrors(rest[2..]));
    }
  }

  /**
   * A reference description of the loop: a directory is removed exactly when it holds
   * Errors.txt and the directory before it was not removed.
   */
  function KeepUnlessRemoved(dirs: seq<Directory>, previousRemoved: bool): (r: seq<Directory>)
  {
    if dirs == [] then []
    else
      var removed := dirs[0].hasErrorsFile && !previousRemoved;
      (if removed then [] else [dirs[0]]) + KeepUnlessRemoved(dirs[1..], removed)
  }

  lemma {:induction false} SkipErrorsMatchesReference(dirs: seq<Directory>)
    ensures SkipErrors(dirs) == KeepUnlessRemoved(dirs, false)
  {
    if dirs != [] {
      if !dirs[0].hasErrorsFile {
        SkipErrorsMatchesReference(dirs[1..]);
      } else if |dirs| > 1 {
        SkipErrorsMatchesReference(dirs[2..]);
        assert dirs[1..][1..] == dirs[2..];
      }
    }
  }

  /** The loop only removes: what it leaves is a subsequence that keeps every unmarked directory. */
  lemma {:induction false} SkipErrorsKeeps(dirs: seq<Directory>)
    ensures IsSubseq(SkipErrors(dirs), dirs)
    ensures forall d :: d in dirs && !d.hasErrorsFile ==> d in SkipErrors(dirs)
  {
    if dirs == [] {
    } else if !dirs[0].hasErrorsFile {
      SkipErrorsKeeps(dirs[1..]);
      SubseqCons(dirs[0], SkipErrors(dirs[1..]), dirs[1..]);
      assert dirs == [dirs[0]] + dirs[1..];
    } else if |dirs| > 1 {
      SkipErrorsKeeps(dirs[2..]);
      SubseqCons(dirs[1], SkipErrors(dirs[2..]), dirs[2..]);
      assert dirs[1..] == [dirs[1]] + dirs[2..];
      SubseqSkip(dirs[0], SkipErrors(dirs), dirs[1..]);
      assert dirs == [dirs[0]] + dirs[1..];
    }
  }

  /**
   * A marked directory at the front is removed, the directory after it slides into the
   * freed slot and is kept whatever it holds, and the loop goes on with the rest as if
   * starting afresh.
   */
  lemma MarkedSuccessorSurvives(a: Directory, b: Directory, rest: seq<Directory>)
    requires a.hasErrorsFile
    ensures SkipErrors([a, b] + rest) == [b] + SkipErrors(rest)
  {
    assert ([a, b] + rest)[2..] == rest;
  }

  /**
   * Wherever the loop removes a directory, it keeps the one right after it, even when
   * that one holds Errors.txt, and treats the next one as if nothing had been removed.
   */
  lemma RemovedSuccessorKept(a: Directory, b: Directory, rest: seq<Directory>, previousRemoved: bool)
    requires a.hasErrorsFile && !previousRemoved
    ensures KeepUnlessRemoved([a, b] + rest, previousRemoved) == [b] + KeepUnlessRemoved(rest, false)
  {
    var s := [a, b] + rest;
    assert s[1..] == [b] + rest && s[1..][1..] == rest;
  }

  /** Three marked directories in a row: the first and third are removed, the middle one kept. */
  lemma ThreeMarkedKeepMiddle(a: Directory, b: Directory, c: Directory)
    requires a.hasErrorsFile && b.hasErrorsFile && c.hasErrorsFile
    ensures SkipErrors([a, b, c]) == [b]
  {
    MarkedSuccessorSurvives(a, b, [c]);
    assert [a, b] + [c] == [a, b, c];
  }

  /** The evidently intended filter: every directory holding Errors.txt is dropped. */
  function WithoutErrors(dirs: seq<Directory>): (r: seq<Directory>)
    ensures IsSubseq(r, dirs)
    ensures forall d :: d in r ==> !d.hasErrorsFile
    ensures forall d :: d in dirs && !d.hasErrorsFile ==> d in r
  {
    if dirs == [] then []
    else if dirs[0].hasErrorsFile then
      var r := WithoutErrors(dirs[1..]);
      SubseqSkip(dirs[0], r, dirs[1..]);
      assert dirs == [dirs[0]] + dirs[1..];
      r
    else
      var r := [dirs[0]] + WithoutErrors(dirs[1..]);
      SubseqCons(dirs[0], WithoutErrors(dirs[1..]), dirs[1..]);
      assert dirs == [dirs[0]] + dirs[1..];
      r
  }

  predicate NoAdjacentMarks(dirs: seq<Directory>)
  {
    forall i :: 0 <= i < |dirs| - 1 ==> !(dirs[i].hasErrorsFile && dirs[i + 1].hasErrorsFile)
  }

  /** The loop as written and the intended filter agree unless two marked directories are adjacent. */
  lemma {:induction false} SkipErrorsAgreesWithoutAdjacentMarks(dirs: seq<Directory>)
    requires NoAdjacentMarks(dirs)
    ensures SkipErrors(dirs) == WithoutErrors(dirs)
  {
    if dirs == [] {
    } else if !dirs[0].hasErrorsFile {
      assert NoAdjacentMarks(dirs[1..]) by {
        forall i | 0 <= i < |dirs[1..]| - 1 ensures !(dirs[1..][i].hasErrorsFile && dirs[1..][i + 1].hasErrorsFile) {
          assert dirs[1..][i] == dirs[i + 1] && dirs[1..][i + 1] == dirs[i + 2];
        }
      }
      SkipErrorsAgreesWithoutAdjacentMarks(dirs[1..]);
    } else if |dirs| > 1 {
      assert !dirs[1].hasErrorsFile;
      assert NoAdjacentMarks(dirs[2..]) by {
        forall i | 0 <= i < |dirs[2..]| - 1 ensures !(dirs[2..][i].hasErrorsFile && dirs[2..][i + 1].hasErrorsFile) {
          assert dirs[2..][i] == dirs[i + 2] && dirs[2..][i + 1] == dirs[i + 3];
        }
      }
      SkipErrorsAgreesWithoutAdjacentMarks(dirs[2..]);
      assert dirs[1..][1..] == dirs[2..];
    }
  }

  function Names(dirs: seq<Directory>): (r: set<string>)
  {
    set d | d in dirs :: d.name
  }

  /**
   * MoreLinq's ExceptBy keyed on the directory name: a directory is yielded when its
   * name is not among `excluded`, and its name is then excluded as well, so only the
   * first directory of each name survives.
   */
  function ExceptByName(dirs: seq<Directory>, excluded: set<string>): (r: seq<Directory>)
    ensures IsSubseq(r, dirs)
    ensures forall d :: d in r ==> d.name !in excluded
    ensures forall i, j :: 0 <= i < j < |r| ==> r[i].name != r[j].name
  {
    if dirs == [] then []
    else if dirs[0].name in excluded then
      var r := ExceptByName(dirs[1..], excluded);
      SubseqSkip(dirs[0], r, dirs[1..]);
      assert dirs == [dirs[0]] + dirs[1..];
      r
    else
      var rest := ExceptByName(dirs[1..], excluded + {dirs[0].name});
      var r := [dirs[0]] + rest;
      SubseqCons(dirs[0], rest, dirs[1..]);
      assert dirs == [dirs[0]] + dirs[1..];
      assert forall i, j :: 0 <= i < j < |r| ==> r[i].name != r[j].name by {
        forall i, j | 0 <= i < j < |r| ensures r[i].name != r[j].name {
          if i == 0 { assert r[j] in rest; }
        }
      }
      r
  }

  /** Every name of `dirs` that is not excluded is the name of some surviving directory. */
  lemma {:induction false} ExceptByNameCovers(dirs: seq<Directory>, excluded: set<string>)
    ensures forall d :: d in dirs && d.name !in excluded ==> d.name in Names(ExceptByName(dirs, excluded))
  {
    if dirs != [] {
      var head := dirs[0];
      if head.name in excluded {
        ExceptByNameCovers(dirs[1..], excluded);
        forall d | d in dirs && d.name !in excluded ensures d.name in Names(ExceptByName(dirs, excluded)) {
          assert d in dirs[1..];
        }
      } else {
        var rest := ExceptByName(dirs[1..], excluded + {head.name});
        ExceptByNameCovers(dirs[1..], excluded + {head.name});
        var r := ExceptByName(dirs, excluded);
        assert r == [head] + rest;
        forall d | d in dirs && d.name !in excluded ensures d.name in Names(r) {
          if d.name != head.name {
            assert d in dirs[1..];
            var e :| e in rest && e.name == d.name;
            assert e in r;
          } else {
            assert r[0] in r;
          }
        }
      }
    }
  }

  /** The directory kept for a name is the first one in `dirs` that carries it. */
  lemma {:induction false} ExceptByNameKeepsFirst(dirs: seq<Directory>, excluded: set<string>, i: nat)
    requires i < |dirs| && dirs[i].name !in excluded
    requires forall j :: 0 <= j < i ==> dirs[j].name != dirs[i].name
    ensures dirs[i] in ExceptByName(dirs, excluded)
  {
    var head := dirs[0];
    if i > 0 {
      assert dirs[1..][i - 1] == dirs[i];
      if head.name in excluded {
        ExceptByNameKeepsFirst(dirs[1..], excluded, i - 1);
      } else {
        assert head.name != dirs[i].name;
        ExceptByNameKeepsFirst(dirs[1..], excluded + {head.name}, i - 1);
      }
    }
  }

  /** `first.ExceptBy(second, info => info.Name)` */
  function ExceptBy(first: seq<Directory>, second: seq<Directory>): (r: seq<Directory>)
  {
    ExceptByName(first, Names(second))
  }

  /** The source set discovery returns, before the load timers are started. */
  function SurvivingSources(compiled: seq<Directory>, source: seq<Directory>): (r: seq<Directory>)
  {
    ExceptBy(SkipErrors(Visible(source)), compiled)
  }

  /**
   * The surviving source directories are an order-preserving subsequence of the
   * non-hidden ones, none shares a name with a compiled directory, no two share a
   * name, and the name of every non-hidden directory without Errors.txt that no
   * compiled directory shares is represented.
   */
  lemma SurvivingSourcesShape(compiled: seq<Directory>, source: seq<Directory>)
    ensures IsSubseq(SurvivingSources(compiled, source), Visible(source))
    ensures forall d, c :: d in SurvivingSources(compiled, source) && c in compiled ==> d.name != c.name
    ensures forall d :: d in SurvivingSources(compiled, source) ==> !d.hidden
    ensures var r := SurvivingSources(compiled, source);
      forall i, j :: 0 <= i < j < |r| ==> r[i].name != r[j].name
    ensures forall d :: d in source && !d.hidden && !d.hasErrorsFile && d.name !in Names(compiled) ==>
      d.name in Names(SurvivingSources(compiled, source))
  {
    var v := Visible(source);
    var r := SurvivingSources(compiled, source);
    SkipErrorsKeeps(v);
    SubseqTrans(r, SkipErrors(v), v);
    forall d, c | d in r && c in compiled ensures d.name != c.name {
      assert c.name in Names(compiled);
    }
    forall d | d in r ensures !d.hidden {
      SubseqMembers(r, v, d);
    }
    ExceptByNameCovers(SkipErrors(v), Names(compiled));
  }
}
