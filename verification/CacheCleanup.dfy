/** The size limit of the protocol response cache (internal/gitcache/cleanup.go): scan a
    repository's cache directory, report its size, and remove the oldest files while the
    total exceeds the limit. */
module CacheCleanup {
  import opened Prelude

  datatype FileInfo = FileInfo(size: nat, mtime: int)

  /** `info` is None when the file vanishes between listing and stat. */
  datatype Entry = Entry(isDir: bool, info: Option<FileInfo>)

  type Entries = map<string, Entry>

  datatype CachedFile = CachedFile(name: string, size: nat, mtime: int)

  /** The entry counts as a cached response. */
  predicate Counts(name: string, e: Entry) {
    !e.isDir && !(|name| > 0 && name[0] == '.') && e.info.Some?
  }

  /** The cached responses and their sizes. */
  function Sizes(entries: Entries): map<string, nat> {
    map name | name in entries && Counts(name, entries[name]) :: entries[name].info.value.size
  }

  ghost function Sum(sizes: map<string, nat>): nat
    decreases |sizes|
  {
    if sizes == map[] then 0
    else
      var k :| k in sizes;
      RemoveSmaller(sizes, k);
      sizes[k] + Sum(sizes - {k})
  }

  lemma RemoveSmaller(sizes: map<string, nat>, k: string)
    requires k in sizes
    ensures |sizes - {k}| == |sizes| - 1
  {
    assert (sizes - {k}).Keys == sizes.Keys - {k};
  }

  /** It does not matter which file is added up first. */
  lemma {:induction false} SumWithout(sizes: map<string, nat>, k: string)
    requires k in sizes
    ensures Sum(sizes) == sizes[k] + Sum(sizes - {k})
    decreases |sizes|
  {
    var j :| j in sizes && Sum(sizes) == sizes[j] + Sum(sizes - {j});
    if j != k {
      RemoveSmaller(sizes, j);
      RemoveSmaller(sizes, k);
      SumWithout(sizes - {j}, k);
      SumWithout(sizes - {k}, j);
      assert sizes - {j} - {k} == sizes - {k} - {j};
    }
  }

  // ----- Sorting by age -----

  ghost predicate ByAge(files: seq<CachedFile>) {
    forall i, j :: 0 <= i <= j < |files| ==> files[i].mtime <= files[j].mtime
  }

  ghost predicate DistinctNames(files: seq<CachedFile>) {
    forall i, j :: 0 <= i < j < |files| ==> files[i].name != files[j].name
  }

  function InsertByAge(f: CachedFile, files: seq<CachedFile>): (r: seq<CachedFile>)
    requires ByAge(files)
    ensures ByAge(r) && |r| == |files| + 1
    ensures forall g :: g in r <==> g == f || g in files
    ensures DistinctNames([f] + files) ==> DistinctNames(r)
  {
    if files == [] || f.mtime <= files[0].mtime then [f] + files
    else
      var r := InsertByAge(f, files[1..]);
      InsertLater(f, files, r);
      [files[0]] + r
  }

  lemma InsertLater(f: CachedFile, files: seq<CachedFile>, r: seq<CachedFile>)
    requires ByAge(files) && files != [] && files[0].mtime < f.mtime
    requires ByAge(r) && forall g :: g in r <==> g == f || g in files[1..]
    requires DistinctNames([f] + files[1..]) ==> DistinctNames(r)
    ensures ByAge([files[0]] + r)
    ensures forall g :: g in [files[0]] + r <==> g == f || g in files
    ensures DistinctNames([f] + files) ==> DistinctNames([files[0]] + r)
  {
    forall j | 0 <= j < |r| ensures files[0].mtime <= r[j].mtime {
      assert r[j] == f || r[j] in files[1..];
    }
    assert files == [files[0]] + files[1..];
    if DistinctNames([f] + files) {
      DistinctLater(f, files);
      forall j | 0 <= j < |r| ensures files[0].name != r[j].name {
        assert r[j] == f || r[j] in files[1..];
      }
    }
  }

  lemma DistinctLater(f: CachedFile, files: seq<CachedFile>)
    requires files != [] && DistinctNames([f] + files)
    ensures DistinctNames([f] + files[1..])
    ensures files[0].name != f.name && forall g :: g in files[1..] ==> g.name != files[0].name
  {
    var all := [f] + files;
    assert all[0] == f && all[1] == files[0];
    assert forall j :: 0 <= j < |files[1..]| ==> files[1..][j] == all[j + 2];
  }

  /** Oldest first. Files of one age come in an unspecified order. */
  method SortByAge(files: seq<CachedFile>) returns (sorted: seq<CachedFile>)
    requires DistinctNames(files)
    ensures ByAge(sorted) && DistinctNames(sorted) && |sorted| == |files|
    ensures forall f :: f in sorted <==> f in files
  {
    sorted := [];
    for i := 0 to |files|
      invariant ByAge(sorted) && DistinctNames(sorted) && |sorted| == i
      invariant forall f :: f in sorted <==> f in files[..i]
    {
      forall j | 0 <= j < |sorted| ensures sorted[j].name != files[i].name {
        assert sorted[j] in files[..i];
      }
      assert files[..i + 1] == files[..i] + [files[i]];
      sorted := InsertByAge(files[i], sorted);
    }
    assert files[..|files|] == files;
  }

  // ----- The directory -----

  /** The files name each counting entry once, as it is. */
  ghost predicate Lists(files: seq<CachedFile>, entries: Entries) {
    && (forall i :: 0 <= i < |files| ==>
          && files[i].name in entries && Counts(files[i].name, entries[files[i].name])
          && entries[files[i].name].info.value == FileInfo(files[i].size, files[i].mtime))
    && DistinctNames(files)
  }

  function Names(files: seq<CachedFile>): set<string> {
    set i | 0 <= i < |files| :: files[i].name
  }

  ghost predicate ListsAll(files: seq<CachedFile>, entries: Entries) {
    Lists(files, entries) && Names(files) == Sizes(entries).Keys
  }

  function AsFile(name: string, e: Entry): CachedFile
    requires e.info.Some?
  {
    CachedFile(name, e.info.value.size, e.info.value.mtime)
  }

  lemma ListOneMore(files: seq<CachedFile>, entries: Entries, seen: map<string, nat>, name: string)
    requires Lists(files, entries) && Names(files) == seen.Keys
    requires name in entries && Counts(name, entries[name]) && name !in seen
    ensures var e := entries[name]; var files' := files + [AsFile(name, e)];
            var seen' := seen[name := e.info.value.size];
            Lists(files', entries) && Names(files') == seen'.Keys && Sum(seen') == Sum(seen) + e.info.value.size
  {
    var e := entries[name];
    var files', seen' := files + [AsFile(name, e)], seen[name := e.info.value.size];
    SumWithout(seen', name);
    assert seen' - {name} == seen;
    NamesAt(files', |files|);
    assert files'[..|files|] == files && files'[..|files'|] == files';
    forall i | 0 <= i < |files| ensures files[i].name != name {
      NamesAt(files, i);
    }
  }

  datatype DirState = Missing | Unreadable | Readable

  /** What a scan yields no list for: the nil slice of the source. The source's comment
      promises an empty list for every directory without cached responses, but an
      existing directory without any gives nil, too. */
  predicate NoList(state: DirState, entries: Entries) {
    state == Unreadable || (state == Readable && Sizes(entries) == map[])
  }

  class CacheDir {
    var state: DirState
    var entries: Entries
    var gauge: Option<nat>

    constructor (state: DirState, entries: Entries)
      requires state == Missing ==> entries == map[]
      ensures this.state == state && this.entries == entries && gauge == None
    {
      this.state, this.entries, gauge := state, entries, None;
    }

    method ScanCacheDir() returns (files: Option<seq<CachedFile>>, totalSize: nat)
      requires state == Missing ==> entries == map[]
      ensures files.None? <==> NoList(state, entries)
      ensures files.Some? ==> ListsAll(files.value, entries) && totalSize == Sum(Sizes(entries))
      // Directories, dotfiles and files that have vanished are no cached responses.
      ensures files.Some? ==>
                forall name :: name in Names(files.value) <==>
                  && name in entries && !entries[name].isDir && entries[name].info.Some?
                  && (name == "" || name[0] != '.')
    {
      totalSize := 0;
      if state == Missing {
        return Some([]), 0;
      }
      if state == Unreadable {
        return None, 0;
      }
      var found: seq<CachedFile> := [];
      var rest := entries.Keys;
      ghost var seen: map<string, nat> := map[];
      while rest != {}
        invariant rest <= entries.Keys
        invariant seen == map name | name in Sizes(entries) && name !in rest :: Sizes(entries)[name]
        invariant Lists(found, entries) && Names(found) == seen.Keys
        invariant totalSize == Sum(seen)
      {
        var name :| name in rest;
        if Counts(name, entries[name]) {
          ListOneMore(found, entries, seen, name);
          found := found + [AsFile(name, entries[name])];
          totalSize := totalSize + entries[name].info.value.size;
          seen := seen[name := entries[name].info.value.size];
        }
        rest := rest - {name};
      }
      assert seen == Sizes(entries);
      if found == [] {
        assert Sizes(entries).Keys == {};
        return None, 0;
      }
      assert found[0].name in Names(found);
      files := Some(found);
    }

    /** os.Remove fails for the files in `stuck`. */
    method Remove(name: string, stuck: set<string>) returns (ok: bool)
      modifies this`entries
      ensures ok <==> name !in stuck
      ensures entries == if ok then old(entries) - {name} else old(entries)
    {
      if name in stuck {
        return false;
      }
      entries := entries - {name};
      ok := true;
    }

    /** The eviction loop. */
    method EvictOldest(sorted: seq<CachedFile>, total: nat, limitBytes: nat, stuck: set<string>)
        returns (totalSize: nat, evicted: nat, ghost i: nat)
      requires Lists(sorted, entries) && total == Sum(Sizes(entries))
      modifies this`entries
      ensures i <= |sorted| && entries == Left(old(entries), sorted, i, stuck)
      ensures totalSize == Sum(Sizes(entries)) && evicted == |old(entries)| - |entries|
      ensures totalSize <= limitBytes || i == |sorted|
      ensures total <= limitBytes ==> i == 0
      ensures evicted > 0 ==>
                var last := LastRemoved(sorted, i, stuck);
                last.Some? && totalSize + last.value.size > limitBytes
    {
      totalSize, evicted, i := total, 0, 0;
      ghost var entries0 := entries;
      var next := 0;
      while next < |sorted| && totalSize > limitBytes
        invariant 0 <= next == i <= |sorted|
        invariant entries == Left(entries0, sorted, i, stuck)
        invariant totalSize == Sum(Sizes(entries)) && evicted == |entries0| - |entries|
        invariant i > 0 ==> total > limitBytes
        invariant var last := LastRemoved(sorted, i, stuck);
                  evicted > 0 ==> last.Some? && totalSize + last.value.size > limitBytes
      {
        var f := sorted[next];
        NextIsLeft(entries0, sorted, i, stuck);
        RemoveOne(entries, f.name);
        var removed := Remove(f.name, stuck);
        if removed {
          totalSize := totalSize - f.size;
          evicted := evicted + 1;
        }
        next, i := next + 1, i + 1;
      }
    }

    /** `tried` are the files whose removal was attempted, in that order, and `last` is the
        last one that was removed. */
    method EnforceRepoSizeLimit(maxCacheSizeMB: Option<int>, stuck: set<string>)
        returns (evicted: nat, ghost tried: seq<CachedFile>, ghost last: Option<CachedFile>)
      requires state == Missing ==> entries == map[]
      modifies this`entries, this`gauge
      ensures NoList(old(state), old(entries)) ==> tried == [] && gauge == old(gauge)
      ensures !NoList(old(state), old(entries)) ==> gauge == Some(Sum(Sizes(entries)))
      // Removals: tried files that are not stuck, oldest first.
      ensures Lists(tried, old(entries)) && ByAge(tried)
      ensures entries == old(entries) - (Names(tried) - stuck)
      ensures evicted == |old(entries)| - |entries|
      ensures OldestFirst(tried, old(entries))
      ensures forall name ::
                name in old(entries)
                && (old(entries)[name].isDir || old(entries)[name].info.None? || (name != "" && name[0] == '.')) ==>
                  name in entries
      // Without a limit, or within it, nothing is removed.
      ensures maxCacheSizeMB.None? || maxCacheSizeMB.value <= 0 ==> tried == []
      ensures maxCacheSizeMB.Some? && Sum(Sizes(old(entries))) <= maxCacheSizeMB.value * 1_048_576 ==> tried == []
      // Otherwise the cache ends within the limit, or every file was tried.
      ensures !NoList(old(state), old(entries)) && maxCacheSizeMB.Some? && maxCacheSizeMB.value > 0 ==>
                || Sum(Sizes(entries)) <= maxCacheSizeMB.value * 1_048_576
                || Names(tried) == Sizes(old(entries)).Keys
      // And no file too many: with the last one removed it would exceed the limit.
      ensures evicted > 0 ==>
                && maxCacheSizeMB.Some? && maxCacheSizeMB.value > 0
                && NoneTooMany(tried, stuck, last, Sum(Sizes(entries)), maxCacheSizeMB.value * 1_048_576)
    {
      evicted, tried, last := 0, [], None;
      ghost var entries0 := entries;
      LeftIs(entries0, [], 0, stuck);
      var files, totalSize := ScanCacheDir();
      if files.None? {
        return;
      }
      gauge := Some(totalSize);
      if maxCacheSizeMB.None? || maxCacheSizeMB.value <= 0 {
        return;
      }
      var limitBytes := maxCacheSizeMB.value * 1024 * 1024;
      if totalSize <= limitBytes {
        return;
      }
      var sorted := SortByAge(files.value);
      ListsAnyOrder(files.value, sorted, entries);
      ghost var i;
      totalSize, evicted, i := EvictOldest(sorted, totalSize, limitBytes, stuck);
      gauge := Some(totalSize);
      tried, last := sorted[..i], LastRemoved(sorted, i, stuck);
      LeftIs(entries0, sorted, i, stuck);
      TriedSummary(entries0, sorted, i);
      NewestRemoved(sorted, i, stuck);
    }
  }

  /** What is left after trying the first i files. */
  function Left(entries: Entries, sorted: seq<CachedFile>, i: nat, stuck: set<string>): Entries
    requires i <= |sorted|
  {
    if i == 0 then entries
    else
      var left, name := Left(entries, sorted, i - 1, stuck), sorted[i - 1].name;
      if name in stuck then left else left - {name}
  }

  function LastRemoved(sorted: seq<CachedFile>, i: nat, stuck: set<string>): Option<CachedFile>
    requires i <= |sorted|
  {
    if i == 0 then None
    else if sorted[i - 1].name !in stuck then Some(sorted[i - 1])
    else LastRemoved(sorted, i - 1, stuck)
  }

  /** No file that was tried is newer than one that was not. */
  ghost predicate OldestFirst(tried: seq<CachedFile>, entries: Entries) {
    forall name, i :: name in Sizes(entries) && name !in Names(tried) && 0 <= i < |tried| ==>
      tried[i].mtime <= entries[name].info.value.mtime
  }

  /** The last file removed is the newest one removed, and keeping it would have left
      the total over the limit. */
  ghost predicate NoneTooMany(tried: seq<CachedFile>, stuck: set<string>, last: Option<CachedFile>, total: nat,
                              limitBytes: nat) {
    && last.Some? && total + last.value.size > limitBytes
    && NewestOf(tried, stuck, last.value)
  }

  ghost predicate NewestOf(tried: seq<CachedFile>, stuck: set<string>, last: CachedFile) {
    && last in tried && last.name !in stuck
    && forall f :: f in tried && f.name !in stuck ==> f.mtime <= last.mtime
  }

  lemma {:induction false} NewestRemoved(sorted: seq<CachedFile>, i: nat, stuck: set<string>)
    requires ByAge(sorted) && i <= |sorted|
    ensures LastRemoved(sorted, i, stuck).Some? ==>
              NewestOf(sorted[..i], stuck, LastRemoved(sorted, i, stuck).value)
  {
    if i > 0 {
      NewestRemoved(sorted, i - 1, stuck);
      assert sorted[..i] == sorted[..i - 1] + [sorted[i - 1]];
      assert sorted[..i][i - 1] == sorted[i - 1];
    }
  }

  lemma NamesAt(files: seq<CachedFile>, i: nat)
    requires i < |files|
    ensures files[i].name in Names(files)
    ensures Names(files[..i + 1]) == Names(files[..i]) + {files[i].name}
  {
    var a, b := files[..i + 1], files[..i];
    forall n ensures n in Names(a) <==> n in Names(b) || n == files[i].name {
      if n in Names(a) {
        var j :| 0 <= j < |a| && a[j].name == n;
        if j < i {
          assert b[j].name == n;
        }
      }
      if n in Names(b) {
        var j :| 0 <= j < |b| && b[j].name == n;
        assert a[j].name == n;
      }
      assert a[i].name == files[i].name;
    }
  }

  lemma ListsAnyOrder(files: seq<CachedFile>, sorted: seq<CachedFile>, entries: Entries)
    requires ListsAll(files, entries) && DistinctNames(sorted) && forall f :: f in sorted <==> f in files
    ensures ListsAll(sorted, entries)
  {
    forall i | 0 <= i < |sorted| ensures sorted[i] in files {
    }
    forall n ensures n in Names(files) <==> n in Names(sorted) {
      if n in Names(files) {
        var i :| 0 <= i < |files| && files[i].name == n;
        assert files[i] in sorted;
        var j :| 0 <= j < |sorted| && sorted[j] == files[i];
      }
      if n in Names(sorted) {
        var i :| 0 <= i < |sorted| && sorted[i].name == n;
        assert sorted[i] in files;
        var j :| 0 <= j < |files| && files[j] == sorted[i];
      }
    }
  }

  lemma NotTriedYet(sorted: seq<CachedFile>, i: nat)
    requires DistinctNames(sorted) && i < |sorted|
    ensures sorted[i].name !in Names(sorted[..i])
  {
    forall j | 0 <= j < i ensures sorted[..i][j].name != sorted[i].name {
      assert sorted[..i][j] == sorted[j];
    }
  }

  lemma {:induction false} LeftIs(entries: Entries, sorted: seq<CachedFile>, i: nat, stuck: set<string>)
    requires i <= |sorted|
    ensures Left(entries, sorted, i, stuck) == entries - (Names(sorted[..i]) - stuck)
  {
    if i == 0 {
      assert Names(sorted[..0]) == {};
      assert entries == entries - {};
    } else {
      LeftIs(entries, sorted, i - 1, stuck);
      NamesAt(sorted, i - 1);
    }
  }

  lemma NextIsLeft(entries: Entries, sorted: seq<CachedFile>, i: nat, stuck: set<string>)
    requires Lists(sorted, entries) && i < |sorted|
    ensures var f, left := sorted[i], Left(entries, sorted, i, stuck);
            && f.name in left && Counts(f.name, left[f.name])
            && left[f.name].info.value.size == f.size
  {
    LeftIs(entries, sorted, i, stuck);
    NotTriedYet(sorted, i);
  }

  lemma RemoveOne(entries: Entries, name: string)
    requires name in entries && Counts(name, entries[name])
    ensures |entries - {name}| == |entries| - 1
    ensures Sum(Sizes(entries)) == entries[name].info.value.size + Sum(Sizes(entries - {name}))
  {
    assert (entries - {name}).Keys == entries.Keys - {name};
    assert Sizes(entries - {name}) == Sizes(entries) - {name};
    SumWithout(Sizes(entries), name);
  }

  lemma TriedSummary(entries0: Entries, sorted: seq<CachedFile>, i: nat)
    requires ListsAll(sorted, entries0) && ByAge(sorted) && i <= |sorted|
    ensures Lists(sorted[..i], entries0) && ByAge(sorted[..i])
    ensures OldestFirst(sorted[..i], entries0)
    ensures i == |sorted| ==> Names(sorted[..i]) == Sizes(entries0).Keys
  {
    forall name, k | name in Sizes(entries0) && name !in Names(sorted[..i]) && 0 <= k < i
      ensures sorted[..i][k].mtime <= entries0[name].info.value.mtime
    {
      assert name in Names(sorted);
      var j :| 0 <= j < |sorted| && sorted[j].name == name;
      NamesUpTo(sorted, i, j);
    }
    if i == |sorted| {
      assert sorted[..i] == sorted;
    }
  }

  lemma NamesUpTo(sorted: seq<CachedFile>, i: nat, j: nat)
    requires i <= |sorted| && j < |sorted|
    ensures j < i ==> sorted[j].name in Names(sorted[..i])
  {
    assert j < i ==> sorted[..i][j] == sorted[j];
  }
}
