/** Which ZIP archives are accepted, entry by entry, and what is known of the files they yield. */
module Unpack {
  import opened Prelude
  import GoPath

  const MAX_FILES: nat := 1024
  const MAX_FILE: nat := 8388608
  const MAX_EXPANDED: nat := 67108864
  const TWO_64: nat := 0x1_0000_0000_0000_0000

  type uint64 = n: int | 0 <= n < TWO_64

  /** A central-directory entry: `special` is any file-type bit but the directory bit, `size` is
      the declared expanded size, `content` what decompression yields (None: it fails). */
  datatype Entry = Entry(name: string, special: bool, dir: bool, size: uint64, content: Option<Bytes>)

  /** Go's unsigned subtraction. */
  function Sub(a: uint64, b: uint64): uint64 { if a >= b then a - b else a + TWO_64 - b }

  function CleanName(e: Entry): string { GoPath.TrimSuffix(e.name, "/") }

  // ------------------------------------------------------- specification

  predicate GoodName(n: string) {
    n != "" && GoPath.Clean(n) == n && '\\' !in n && '\0' !in n && !GoPath.IsAbs(n) && GoPath.UnderIdl(n)
  }

  predicate GoodEntry(e: Entry) {
    && GoodName(CleanName(e)) && !e.special
    && if e.dir then GoPath.HasSuffix(e.name, "/") && e.size == 0
       else
         && GoPath.HasPrefix(e.name, "idl/") && GoPath.HasSuffix(e.name, ".thrift") && e.size <= MAX_FILE
         && e.content.Some? && |e.content.value| == e.size
  }

  predicate IsFile(e: Entry) { !e.dir && e.content.Some? }

  function Total(entries: seq<Entry>): nat {
    if entries == [] then 0
    else
      var last := entries[|entries| - 1];
      Total(entries[..|entries| - 1]) + if IsFile(last) then last.size else 0
  }

  function Files(entries: seq<Entry>): map<string, Bytes> {
    if entries == [] then map[]
    else
      var (init, last) := (Files(entries[..|entries| - 1]), entries[|entries| - 1]);
      if IsFile(last) then init[last.name := last.content.value] else init
  }

  ghost predicate Each(entries: seq<Entry>, good: Entry -> bool) {
    forall i | 0 <= i < |entries| :: good(entries[i])
  }

  ghost predicate Apart(entries: seq<Entry>, name: Entry -> string) {
    forall i, j | 0 <= i < j < |entries| :: name(entries[i]) != name(entries[j])
  }

  /** Every entry is good by itself, no two share a clean name, and the files fit the limit together. */
  ghost predicate GoodEntries(entries: seq<Entry>) {
    Each(entries, GoodEntry) && Apart(entries, CleanName) && Total(entries) <= MAX_EXPANDED
  }

  /** `a` is a proper ancestor of `p`. */
  predicate Below(p: string, a: string) { GoPath.HasPrefix(p, a + "/") }

  ghost predicate Acceptable(entries: seq<Entry>) {
    && |entries| <= MAX_FILES && GoodEntries(entries) && Files(entries) != map[]
    && forall a, p | a in Files(entries) && p in Files(entries) :: !Below(p, a)
  }

  // ------------------------------------------------- what acceptance means

  lemma FileNameIsClean(e: Entry)
    requires GoodEntry(e) && IsFile(e)
    ensures CleanName(e) == e.name
  {
    assert e.name[|e.name| - 1] == ".thrift"[6] == 't';
  }

  /** All that matters for the resulting map: file names differ and declared sizes are true. */
  ghost predicate Tidy(entries: seq<Entry>) {
    && (forall i, j | 0 <= i < j < |entries| && IsFile(entries[i]) && IsFile(entries[j]) :: entries[i].name != entries[j].name)
    && (forall i | 0 <= i < |entries| && IsFile(entries[i]) :: |entries[i].content.value| == entries[i].size)
  }

  lemma GoodIsTidy(entries: seq<Entry>)
    requires GoodEntries(entries)
    ensures Tidy(entries)
  {
    forall i | 0 <= i < |entries| ensures GoodEntry(entries[i]) { }
    forall i, j | 0 <= i < j < |entries| && IsFile(entries[i]) && IsFile(entries[j])
      ensures entries[i].name != entries[j].name
    {
      FileNameIsClean(entries[i]);
      FileNameIsClean(entries[j]);
    }
  }

  /** Every file comes from an entry of that name. */
  lemma {:induction false} FileComesFrom(entries: seq<Entry>, n: string) returns (i: nat)
    requires n in Files(entries)
    ensures i < |entries| && IsFile(entries[i]) && entries[i].name == n
  {
    var (init, last) := (entries[..|entries| - 1], entries[|entries| - 1]);
    if IsFile(last) && last.name == n { i := |entries| - 1; } else { i := FileComesFrom(init, n); }
  }

  lemma LastIsNew(entries: seq<Entry>)
    requires Tidy(entries) && entries != [] && IsFile(entries[|entries| - 1])
    ensures entries[|entries| - 1].name !in Files(entries[..|entries| - 1])
  {
    NotAFile(entries[..|entries| - 1], entries[|entries| - 1].name);
  }

  lemma {:induction false} NotAFile(entries: seq<Entry>, n: string)
    requires forall i | 0 <= i < |entries| && IsFile(entries[i]) :: entries[i].name != n
    ensures n !in Files(entries)
  {
    if entries != [] { NotAFile(entries[..|entries| - 1], n); }
  }

  /** Every file entry is in the result under its own name, with its own content. */
  lemma {:induction false} FileGoesTo(entries: seq<Entry>, i: nat)
    requires Tidy(entries) && i < |entries| && IsFile(entries[i])
    ensures entries[i].name in Files(entries) && Files(entries)[entries[i].name] == entries[i].content.value
  {
    var init := entries[..|entries| - 1];
    if i < |init| {
      FileGoesTo(init, i);
      if IsFile(entries[|init|]) { LastIsNew(entries); }
    }
  }

  /** Names in the result are clean `idl/….thrift` paths and every file is at most 8 MiB. */
  lemma EveryFileIsGood(entries: seq<Entry>, n: string)
    requires Acceptable(entries) && n in Files(entries)
    ensures GoodName(n) && GoPath.HasPrefix(n, "idl/") && GoPath.HasSuffix(n, ".thrift")
    ensures |Files(entries)[n]| <= MAX_FILE
  {
    var i := FileComesFrom(entries, n);
    GoodIsTidy(entries);
    FileGoesTo(entries, i);
    assert GoodEntry(entries[i]);
    FileNameIsClean(entries[i]);
  }

  /** The names of the files in archive order. */
  function Names(entries: seq<Entry>): seq<string> {
    if entries == [] then []
    else
      var last := entries[|entries| - 1];
      Names(entries[..|entries| - 1]) + if IsFile(last) then [last.name] else []
  }

  function SumSizes(files: map<string, Bytes>, names: seq<string>): nat
    requires forall n | n in names :: n in files
  {
    if names == [] then 0 else SumSizes(files, names[..|names| - 1]) + |files[names[|names| - 1]]|
  }

  lemma {:induction false} SumStable(files: map<string, Bytes>, files': map<string, Bytes>, names: seq<string>)
    requires forall n | n in names :: n in files && n in files' && files'[n] == files[n]
    ensures SumSizes(files', names) == SumSizes(files, names)
  {
    if names != [] { SumStable(files, files', names[..|names| - 1]); }
  }

  lemma {:induction false} NamesAreKeys(entries: seq<Entry>)
    requires Tidy(entries)
    ensures Distinct(Names(entries)) && forall n :: n in Names(entries) <==> n in Files(entries)
  {
    if entries != [] {
      NamesAreKeys(entries[..|entries| - 1]);
      if IsFile(entries[|entries| - 1]) { LastIsNew(entries); }
    }
  }

  /** The contents of the result add up to the running total, each file counted once. */
  lemma {:induction false} TotalIsSum(entries: seq<Entry>)
    requires Tidy(entries)
    ensures Distinct(Names(entries)) && forall n :: n in Names(entries) <==> n in Files(entries)
    ensures SumSizes(Files(entries), Names(entries)) == Total(entries)
  {
    NamesAreKeys(entries);
    if entries != [] {
      var (init, last) := (entries[..|entries| - 1], entries[|entries| - 1]);
      TotalIsSum(init);
      if IsFile(last) {
        LastIsNew(entries);
        SumStable(Files(init), Files(entries), Names(init));
        SumOneMore(Files(entries), Names(init), last.name);
      } else {
        assert Names(init) + [] == Names(init);
      }
    }
  }

  lemma SumOneMore(files: map<string, Bytes>, names: seq<string>, n: string)
    requires n in files && forall m | m in names :: m in files
    ensures SumSizes(files, names + [n]) == SumSizes(files, names) + |files[n]|
  {
    assert (names + [n])[..|names|] == names;
  }

  // ------------------------------------------------------ spelled out

  lemma GoodNameMeans(n: string)
    ensures GoodName(n) <==>
      && GoPath.Split(n)[0] == "idl" && (forall s :: s in GoPath.Split(n) ==> s != "" && s != "." && s != "..")
      && '\\' !in n && '\0' !in n
  {
    hide GoPath.Push, GoPath.Slashed, GoPath.Split, GoPath.PushAll;
    var segs := GoPath.Split(n);
    GoPath.NoSlashInPieces(n);
    GoPath.SlashedSplit(n);
    if GoodName(n) { GoPath.CleanElements(n); }
    if segs[0] == "idl" && forall s :: s in segs ==> s != "" && s != "." && s != ".." {
      GoPath.HeadOfSlashed(segs);
      GoPath.CleanPlain(n, segs);
      if |segs| > 1 {
        GoPath.SlashedCons(segs[0], segs[1..]);
        assert segs == [segs[0]] + segs[1..];
      } else {
        assert segs == ["idl"];
        GoPath.SplitPlain("idl");
        GoPath.SlashedSplit("idl");
      }
    }
  }

  /** The name without its trailing slash consists of ordinary elements, the first one `idl`; a file ends in
      `.thrift`, is at most 8 MiB large and decompresses to what it declares. */
  lemma GoodEntryMeans(e: Entry, n: string)
    requires if e.name != "" && e.name[|e.name| - 1] == '/' then e.name == n + "/" else e.name == n
    ensures CleanName(e) == n
    ensures GoodEntry(e) <==>
      && GoPath.Split(n)[0] == "idl" && (forall s :: s in GoPath.Split(n) ==> s != "" && s != "." && s != "..")
      && '\\' !in n && '\0' !in n && !e.special
      && if e.dir then e.name == n + "/" && e.size == 0
         else
           && "idl/" <= e.name && |e.name| >= 7 && e.name[|e.name| - 7..] == ".thrift"
           && e.size <= 8388608 && e.content.Some? && |e.content.value| == e.size
  {
    hide GoodName;
    GoodNameMeans(n);
  }

  lemma HasContent(e: Entry)
    requires GoodEntry(e) && !e.dir
    ensures IsFile(e)
  {
  }

  lemma FilesMeans(entries: seq<Entry>)
    requires GoodEntries(entries)
    ensures forall n :: n in Files(entries) <==> exists i :: 0 <= i < |entries| && !entries[i].dir && entries[i].name == n
  {
    hide GoodEntry, CleanName, Total, Files;
    GoodIsTidy(entries);
    forall i | 0 <= i < |entries| && !entries[i].dir ensures entries[i].name in Files(entries) {
      HasContent(entries[i]);
      FileGoesTo(entries, i);
    }
    forall n | n in Files(entries) ensures exists i :: 0 <= i < |entries| && !entries[i].dir && entries[i].name == n {
      var i := FileComesFrom(entries, n);
    }
  }

  lemma NoneBelow(entries: seq<Entry>)
    requires GoodEntries(entries)
    ensures Files(entries) != map[] <==> exists i :: 0 <= i < |entries| && !entries[i].dir
    ensures (forall a, p | a in Files(entries) && p in Files(entries) :: !Below(p, a)) <==>
      forall i, j | 0 <= i < |entries| && 0 <= j < |entries| && !entries[i].dir && !entries[j].dir ::
        !(entries[i].name + "/" <= entries[j].name)
  {
    hide GoodEntry, CleanName, Total, Files;
    FilesMeans(entries);
    assert Files(entries) != map[] <==> exists n :: n in Files(entries);
    if i :| 0 <= i < |entries| && !entries[i].dir { assert entries[i].name in Files(entries); }
    if i, j :| 0 <= i < |entries| && 0 <= j < |entries| && !entries[i].dir && !entries[j].dir
               && entries[i].name + "/" <= entries[j].name {
      assert Below(entries[j].name, entries[i].name);
    }
  }

  /** At most 1024 entries, all good, their names apart, 64 MiB in all, a file among them and none below another. */
  lemma AcceptableMeans(entries: seq<Entry>)
    ensures Acceptable(entries) <==>
      && |entries| <= 1024 && Total(entries) <= 67108864
      && (forall i | 0 <= i < |entries| :: GoodEntry(entries[i]))
      && (forall i, j | 0 <= i < j < |entries| :: CleanName(entries[i]) != CleanName(entries[j]))
      && (exists i :: 0 <= i < |entries| && !entries[i].dir)
      && (forall i, j | 0 <= i < |entries| && 0 <= j < |entries| && !entries[i].dir && !entries[j].dir ::
            !(entries[i].name + "/" <= entries[j].name))
  {
    hide GoodEntry, CleanName, Total, Files, Below;
    if GoodEntries(entries) { NoneBelow(entries); }
    assert Each(entries, GoodEntry) <==> forall i | 0 <= i < |entries| :: GoodEntry(entries[i]);
    assert Apart(entries, CleanName) <==>
           forall i, j | 0 <= i < j < |entries| :: CleanName(entries[i]) != CleanName(entries[j]);
  }

  // ------------------------------------------------------------ the method

  function Parent(segs: seq<string>, k: nat): string
    requires k <= |segs|
  {
    if k == 0 then "." else GoPath.Slashed(segs[..k])
  }

  /** The ancestor walk of one file; it visits exactly the proper ancestors and stops. */
  method HasAncestor(files: map<string, Bytes>, name: string) returns (found: bool)
    requires GoodName(name)
    ensures found <==> exists a :: a in files && Below(name, a)
  {
    ghost var segs := GoPath.Split(name);
    GoPath.CleanElements(name);
    GoPath.SlashedSplit(name);
    assert segs[..|segs|] == segs;
    ghost var k := |segs|;
    var parent := name;
    parent := StepUp(name, segs, k);
    k := k - 1;
    while parent != "."
      invariant 0 <= k < |segs| && parent == Parent(segs, k)
      invariant forall j | k < j < |segs| :: GoPath.Slashed(segs[..j]) !in files
      decreases k
    {
      if parent in files {
        GoPath.AncestorElements(name, parent);
        return true;
      }
      parent := StepUp(parent, segs, k);
      k := k - 1;
    }
    forall a | a in files ensures !Below(name, a) { GoPath.AncestorElements(name, a); }
    found := false;
  }

  method StepUp(path: string, ghost segs: seq<string>, ghost k: nat) returns (parent: string)
    requires 0 < k <= |segs| && segs[0] == "idl" && (forall s | s in segs :: GoPath.Plain(s)) && path == Parent(segs, k)
    ensures parent == Parent(segs, k - 1) && (parent == "." <==> k == 1)
  {
    parent := GoPath.Dir(path);
    assert segs[..k] == segs[..k - 1] + [segs[k - 1]] && segs[k - 1] in segs;
    if k == 1 { GoPath.DirSingle(segs[0]); }
    else {
      GoPath.DirMany(segs[..k - 1], segs[k - 1]);
      GoPath.HeadOfSlashed(segs[..k - 1]);
    }
  }

  lemma {:induction false} TotalGrows(entries: seq<Entry>, k: nat)
    requires k <= |entries|
    ensures Total(entries[..k]) <= Total(entries)
  {
    if k < |entries| {
      TotalGrows(entries[..|entries| - 1], k);
      assert entries[..|entries| - 1][..k] == entries[..k];
    } else {
      assert entries[..k] == entries;
    }
  }

  lemma OneMore(entries: seq<Entry>, k: nat)
    requires k < |entries|
    ensures Total(entries[..k + 1]) == Total(entries[..k]) + if IsFile(entries[k]) then entries[k].size else 0
    ensures Files(entries[..k + 1])
         == if IsFile(entries[k]) then Files(entries[..k])[entries[k].name := entries[k].content.value] else Files(entries[..k])
  {
    var more := entries[..k + 1];
    assert more[..k] == entries[..k] && more[k] == entries[k];
  }

  lemma EachOneMore(entries: seq<Entry>, k: nat, good: Entry -> bool)
    requires k < |entries|
    ensures Each(entries[..k + 1], good) <==> Each(entries[..k], good) && good(entries[k])
    ensures Each(entries, good) ==> good(entries[k])
  {
    var more := entries[..k + 1];
    assert more[k] == entries[k];
    forall i | 0 <= i < k ensures more[i] == entries[..k][i] { }
  }

  lemma ApartOneMore(entries: seq<Entry>, k: nat, name: Entry -> string, seen: set<string>)
    requires k < |entries| && seen == set i | 0 <= i < k :: name(entries[i])
    ensures Apart(entries[..k], name) && name(entries[k]) !in seen ==> Apart(entries[..k + 1], name)
    ensures name(entries[k]) in seen ==> !Apart(entries, name)
  {
    var more := entries[..k + 1];
    if Apart(entries[..k], name) && name(entries[k]) !in seen {
      forall i, j | 0 <= i < j < |more| ensures name(more[i]) != name(more[j]) {
        if j == k { assert name(entries[i]) in seen; }
        else { assert more[i] == entries[..k][i] && more[j] == entries[..k][j]; }
      }
    }
    if name(entries[k]) in seen {
      var i :| 0 <= i < k && name(entries[i]) == name(entries[k]);
    }
  }

  /** What the loop body tests of one entry, given what it has seen so far. */
  method CheckEntry(e: Entry, seen: set<string>, total: uint64) returns (ok: bool)
    requires total <= MAX_EXPANDED
    ensures ok <==> GoodEntry(e) && CleanName(e) !in seen && total + (if IsFile(e) then e.size else 0) <= MAX_EXPANDED
  {
    var clean := CleanName(e);
    if clean == "" || GoPath.Clean(clean) != clean || '\\' in clean || '\0' in clean || GoPath.IsAbs(clean)
       || (clean != "idl" && !GoPath.HasPrefix(clean, "idl/")) { return false; }
    if clean in seen { return false; }
    if e.special { return false; }
    if e.dir { return GoPath.HasSuffix(e.name, "/") && e.size == 0; }
    if !GoPath.HasPrefix(e.name, "idl/") || !GoPath.HasSuffix(e.name, ".thrift") { return false; }
    // The subtraction is unsigned; it cannot wrap because the running total never passes the limit.
    assert Sub(MAX_EXPANDED, total) == MAX_EXPANDED - total;
    if e.size > MAX_FILE || e.size > Sub(MAX_EXPANDED, total) { return false; }
    ok := e.content.Some? && |e.content.value| <= MAX_FILE && |e.content.value| == e.size;
  }

  lemma Nothing(entries: seq<Entry>)
    ensures Total(entries[..0]) == 0 && Files(entries[..0]) == map[]
  {
  }

  /** The entry loop: refuse at the first fault. */
  method ReadEntries(entries: seq<Entry>) returns (ok: bool, files: map<string, Bytes>, total: uint64)
    ensures ok <==> GoodEntries(entries)
    ensures ok ==> files == Files(entries) && total == Total(entries)
  {
    hide GoodEntry, CleanName, Files, Total;
    ok, files, total := false, map[], 0;
    Nothing(entries);
    var seen: set<string> := {};
    for k := 0 to |entries|
      invariant Each(entries[..k], GoodEntry) && Apart(entries[..k], CleanName)
      invariant files == Files(entries[..k]) && total == Total(entries[..k]) <= MAX_EXPANDED
      invariant seen == set i | 0 <= i < k :: CleanName(entries[i])
    {
      var e := entries[k];
      OneMore(entries, k);
      EachOneMore(entries, k, GoodEntry);
      ApartOneMore(entries, k, CleanName, seen);
      TotalGrows(entries, k + 1);
      var good := CheckEntry(e, seen, total);
      if !good { return; }
      seen := seen + {CleanName(e)};
      if e.dir { continue; }
      HasContent(e);
      total := total + e.size;
      files := files[e.name := e.content.value];
    }
    assert entries[..|entries|] == entries;
    ok := true;
  }

  method Unpack(entries: seq<Entry>) returns (r: Result<map<string, Bytes>>)
    ensures r.Ok? <==> Acceptable(entries)
    ensures r.Ok? ==> r.value == Files(entries)
  {
    if |entries| > MAX_FILES { return Err; }
    var ok, files, total := ReadEntries(entries);
    if !ok { return Err; }
    var names := files.Keys;
    while names != {}
      invariant names <= files.Keys
      invariant forall n, a | n in files && n !in names && a in files :: !Below(n, a)
      decreases names
    {
      var name :| name in names;
      var i := FileComesFrom(entries, name);
      assert GoodEntry(entries[i]);
      FileNameIsClean(entries[i]);
      var conflict := HasAncestor(files, name);
      if conflict { return Err; }
      names := names - {name};
    }
    if files == map[] { return Err; }
    r := Ok(files);
  }
}
