/**
 * The decision part of hot reload: which changed file paths are considered, and the
 * two-second debounce on a wrapper's LastWrite timestamp.
 */
module HotReload {
  import opened Plugins
  import opened Seqs

  /** Two seconds, in ticks. */
  const DebounceTicks: int := 2 * TicksPerSecond

  /** `string.Split(sep)`: the pieces between separators, empty pieces included. */
  function Split(s: string, sep: char): (parts: seq<string>)
    ensures |parts| >= 1
    ensures forall i :: 0 <= i < |parts| ==> sep !in parts[i]
    decreases |s|
  {
    if s == [] then [[]]
    else
      var rest := Split(s[1..], sep);
      if s[0] == sep then [[]] + rest
      else [[s[0]] + rest[0]] + rest[1..]
  }

  /** `string.Join(sep, parts)`. */
  function Join(parts: seq<string>, sep: char): (r: string)
    requires |parts| >= 1
  {
    if |parts| == 1 then parts[0] else parts[0] + [sep] + Join(parts[1..], sep)
  }

  lemma {:induction false} JoinSplit(s: string, sep: char)
    ensures Join(Split(s, sep), sep) == s
    decreases |s|
  {
    if s != [] {
      JoinSplit(s[1..], sep);
      var rest := Split(s[1..], sep);
      if s[0] == sep {
        assert ([[]] + rest)[1..] == rest;
      } else {
        var parts := [[s[0]] + rest[0]] + rest[1..];
        if |rest| > 1 {
          assert parts[1..] == rest[1..];
          assert Join(rest, sep) == rest[0] + [sep] + Join(rest[1..], sep);
        }
      }
      assert s == [s[0]] + s[1..];
    }
  }

  /** Splitting a piece free of the separator, followed by the separator and more text. */
  lemma {:induction false} SplitAfterPiece(p: string, sep: char, t: string)
    requires sep !in p
    ensures Split(p + [sep] + t, sep) == [p] + Split(t, sep)
    decreases |p|
  {
    if p == [] {
      assert ([sep] + t)[1..] == t;
    } else {
      SplitAfterPiece(p[1..], sep, t);
      assert (p + [sep] + t)[1..] == p[1..] + [sep] + t;
      assert [p[0]] + p[1..] == p;
    }
  }

  lemma {:induction false} SplitPiece(p: string, sep: char)
    requires sep !in p
    ensures Split(p, sep) == [p]
    decreases |p|
  {
    if p != [] {
      SplitPiece(p[1..], sep);
      assert [p[0]] + p[1..] == p;
    }
  }

  /** Splitting undoes joining pieces that do not contain the separator. */
  lemma {:induction false} SplitJoin(parts: seq<string>, sep: char)
    requires |parts| >= 1
    requires forall i :: 0 <= i < |parts| ==> sep !in parts[i]
    ensures Split(Join(parts, sep), sep) == parts
  {
    if |parts| == 1 {
      SplitPiece(parts[0], sep);
    } else {
      SplitJoin(parts[1..], sep);
      SplitAfterPiece(parts[0], sep, Join(parts[1..], sep));
      assert parts == [parts[0]] + parts[1..];
    }
  }

  lemma {:induction false} JoinSnoc(parts: seq<string>, last: string, sep: char)
    requires |parts| >= 1
    ensures Join(parts + [last], sep) == Join(parts, sep) + [sep] + last
  {
    if |parts| > 1 {
      assert (parts + [last])[1..] == parts[1..] + [last];
      JoinSnoc(parts[1..], last, sep);
    }
  }

  predicate EndsWith(s: string, suffix: string)
  {
    |suffix| <= |s| && s[|s| - |suffix|..] == suffix
  }

  /**
   * The plugin name HotReloadDll goes on with, or None when it stops early: the path
   * does not end in ".dll", or the text before the first '.' of the last '\'-separated
   * segment differs from the segment before it. A path without '\' has no such
   * segment; indexing it throws and the handler's catch ends it the same way.
   */
  function ReloadTarget(fullPath: string): (r: Option<string>)
  {
    if !EndsWith(fullPath, ".dll") then None
    else
      var parts := Split(fullPath, '\\');
      if |parts| < 2 then None
      else
        var first := Split(parts[|parts| - 1], '.')[0];
        if first == parts[|parts| - 2] then Some(first) else None
  }

  /**
   * Every dll named after its own directory triggers a reload of that name:
   * `...\Name\Name.ext` with ext ending in "dll".
   */
  lemma ReloadTargetComplete(dirs: seq<string>, name: string, ext: string)
    requires forall i :: 0 <= i < |dirs| ==> '\\' !in dirs[i]
    requires '\\' !in name && '.' !in name && '\\' !in ext
    requires EndsWith(name + ['.'] + ext, ".dll")
    ensures ReloadTarget(Join(dirs + [name, name + ['.'] + ext], '\\')) == Some(name)
  {
    var last := name + ['.'] + ext;
    var parts := dirs + [name, last];
    var path := Join(parts, '\\');
    SegmentsFreeOfSeparator(dirs, name, ext);
    SplitJoin(parts, '\\');
    AppendPair(dirs, name, last);
    JoinSnoc(dirs + [name], last, '\\');
    EndsWithAppend(Join(dirs + [name], '\\') + ['\\'], last, ".dll");
    assert EndsWith(path, ".dll");
    assert Split(path, '\\') == parts;
    assert parts[|parts| - 1] == last && parts[|parts| - 2] == name;
    SplitAfterPiece(name, '.', ext);
    assert Split(last, '.')[0] == name;
  }

  lemma SegmentsFreeOfSeparator(dirs: seq<string>, name: string, ext: string)
    requires forall i :: 0 <= i < |dirs| ==> '\\' !in dirs[i]
    requires '\\' !in name && '\\' !in ext
    ensures var parts := dirs + [name, name + ['.'] + ext];
      forall i :: 0 <= i < |parts| ==> '\\' !in parts[i]
  {
    var last := name + ['.'] + ext;
    var parts := dirs + [name, last];
    assert '\\' !in last by {
      forall k | 0 <= k < |last| ensures last[k] != '\\' {
        if k < |name| { assert last[k] == name[k]; }
        else if k > |name| { assert last[k] == ext[k - |name| - 1]; }
      }
    }
    forall i | 0 <= i < |parts| ensures '\\' !in parts[i] {
      if i < |dirs| { assert parts[i] == dirs[i]; }
      else if i == |dirs| { assert parts[i] == name; }
      else { assert parts[i] == last; }
    }
  }

  lemma EndsWithAppend(a: string, b: string, suffix: string)
    requires EndsWith(b, suffix)
    ensures EndsWith(a + b, suffix)
  {
    assert (a + b)[|a + b| - |suffix|..] == b[|b| - |suffix|..];
  }

  /** A '.' inside the last segment, when the whole path ends in ".dll". */
  lemma DotInLastSegment(init: seq<string>, last: string)
    requires |init| >= 1 && EndsWith(Join(init + [last], '\\'), ".dll")
    ensures '.' in last
  {
    JoinSnoc(init, last, '\\');
    DotAfterSeparator(Join(init, '\\') + ['\\'], last);
  }

  /** A text that ends in ".dll" and has '\' right before `last` has its '.' inside `last`. */
  lemma DotAfterSeparator(before: string, last: string)
    requires before != [] && before[|before| - 1] == '\\'
    requires EndsWith(before + last, ".dll")
    ensures '.' in last
  {
    var path := before + last;
    var tail := path[|path| - 4..];
    assert tail == ".dll";
    assert path[|before| - 1] == '\\';
    assert last[|last| - 4] == path[|path| - 4] == tail[0];
  }

  /** A segment holding a '.' is its first '.'-piece, a '.', and the rest. */
  lemma SplitFirstPiece(last: string)
    requires '.' in last
    ensures var pieces := Split(last, '.');
      |pieces| >= 2 && last == pieces[0] + ['.'] + Join(pieces[1..], '.')
  {
    var pieces := Split(last, '.');
    var first := pieces[0];
    JoinSplit(last, '.');
    assert |pieces| == 1 ==> last == first;
  }

  /**
   * Only such dlls trigger a reload: a path that passes both checks is
   * `...\Name\Name.ext` for the name the handler goes on with.
   */
  lemma ReloadTargetSound(path: string, name: string)
    requires ReloadTarget(path) == Some(name)
    ensures EndsWith(path, ".dll") && '\\' !in name && '.' !in name
    ensures exists dirs: seq<string>, ext: string ::
      (forall i :: 0 <= i < |dirs| ==> '\\' !in dirs[i]) && '\\' !in ext &&
      path == Join(dirs + [name, name + ['.'] + ext], '\\')
  {
    var parts := Split(path, '\\');
    var n := |parts|;
    var last := parts[n - 1];
    JoinSplit(path, '\\');
    assert parts == parts[..n - 1] + [last];
    DotInLastSegment(parts[..n - 1], last);
    SplitFirstPiece(last);
    var ext := Join(Split(last, '.')[1..], '.');
    SuffixFree(last, name + ['.'], ext, '\\');
    PathOfSegments(parts, name, ext);
  }

  /** Segments ending in `name` and `name.ext` join to a path of the form the ensures names. */
  lemma PathOfSegments(parts: seq<string>, name: string, ext: string)
    requires |parts| >= 2 && parts[|parts| - 2] == name && parts[|parts| - 1] == name + ['.'] + ext
    requires forall i :: 0 <= i < |parts| ==> '\\' !in parts[i]
    ensures exists dirs: seq<string> ::
      (forall i :: 0 <= i < |dirs| ==> '\\' !in dirs[i]) &&
      Join(parts, '\\') == Join(dirs + [name, name + ['.'] + ext], '\\')
  {
    var dirs := parts[..|parts| - 2];
    var last := name + ['.'] + ext;
    LastTwo(parts);
    assert [parts[|parts| - 2], parts[|parts| - 1]] == [name, last];
    assert Join(parts, '\\') == Join(dirs + [name, last], '\\');
    assert forall i :: 0 <= i < |dirs| ==> '\\' !in dirs[i] by {
      forall i | 0 <= i < |dirs| ensures '\\' !in dirs[i] {
        assert dirs[i] == parts[i];
      }
    }
  }

  /**
   * A plugin whose directory name holds a '.' never reloads: the text before the first
   * '.' of the file name cannot equal a segment that holds one.
   */
  lemma DottedDirectoryNeverReloads(path: string)
    requires var parts := Split(path, '\\'); |parts| >= 2 && '.' in parts[|parts| - 2]
    ensures ReloadTarget(path) == None
  {
    var parts := Split(path, '\\');
    var first := Split(parts[|parts| - 1], '.')[0];
    assert '.' !in first;
  }

  /** `Math.Abs((now - lastWrite).TotalSeconds) < 2`, in ticks. */
  predicate WithinDebounce(lastWrite: int, now: int)
  {
    -DebounceTicks < now - lastWrite < DebounceTicks
  }

  /**
   * The times at which a wrapper whose LastWrite is `lastWrite` schedules a reload, for
   * triggers arriving at `times` (each a path that passed the filter).
   */
  function ScheduledTimes(lastWrite: int, times: seq<int>): (r: seq<int>)
    decreases |times|
  {
    if times == [] then []
    else if WithinDebounce(lastWrite, times[0]) then ScheduledTimes(lastWrite, times[1..])
    else [times[0]] + ScheduledTimes(times[0], times[1..])
  }

  /**
   * Scheduled reloads are spaced by the debounce window: the first is at least two
   * seconds from the LastWrite it started with, each later one at least two seconds
   * from the one before, and every one is the time of some trigger.
   */
  lemma {:induction false} ScheduledTimesSpaced(lastWrite: int, times: seq<int>)
    ensures var r := ScheduledTimes(lastWrite, times);
      && (r != [] ==> !WithinDebounce(lastWrite, r[0]))
      && (forall i :: 0 <= i < |r| - 1 ==> !WithinDebounce(r[i], r[i + 1]))
      && (forall t :: t in r ==> t in times)
    decreases |times|
  {
    if times != [] {
      if WithinDebounce(lastWrite, times[0]) {
        ScheduledTimesSpaced(lastWrite, times[1..]);
      } else {
        ScheduledTimesSpaced(times[0], times[1..]);
      }
    }
  }

  /** A burst of triggers all within two seconds of each other schedules at most one reload. */
  lemma BurstSchedulesAtMostOne(lastWrite: int, times: seq<int>)
    requires forall i, j :: 0 <= i < |times| && 0 <= j < |times| ==> WithinDebounce(times[i], times[j])
    ensures |ScheduledTimes(lastWrite, times)| <= 1
  {
    var r := ScheduledTimes(lastWrite, times);
    ScheduledTimesSpaced(lastWrite, times);
    if |r| >= 2 {
      TriggersWithinDebounce(times, r[0], r[1]);
    }
  }

  lemma TriggersWithinDebounce(times: seq<int>, a: int, b: int)
    requires forall i, j :: 0 <= i < |times| && 0 <= j < |times| ==> WithinDebounce(times[i], times[j])
    requires a in times && b in times
    ensures WithinDebounce(a, b)
  {
    var i :| 0 <= i < |times| && times[i] == a;
    var j :| 0 <= j < |times| && times[j] == b;
  }
}
