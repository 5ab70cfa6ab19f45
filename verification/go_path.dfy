/** Go's `path` package on slash-separated strings. */
module GoPath {

  /** The pieces between slashes; always at least one. */
  function Split(p: string): (r: seq<string>)
    ensures |r| >= 1
  {
    if p == "" then [""]
    else
      var rest := Split(p[1..]);
      if p[0] == '/' then [""] + rest else [[p[0]] + rest[0]] + rest[1..]
  }

  function Slashed(segs: seq<string>): string {
    if segs == [] then "" else if |segs| == 1 then segs[0] else segs[0] + "/" + Slashed(segs[1..])
  }

  /** One step of lexical cleaning: drop "" and ".", let ".." cancel what stands before it. */
  function Push(kept: seq<string>, seg: string, rooted: bool): seq<string> {
    if seg == "" || seg == "." then kept
    else if seg != ".." then kept + [seg]
    else if kept != [] && kept[|kept| - 1] != ".." then kept[..|kept| - 1]
    else if rooted then kept
    else kept + [".."]
  }

  function PushAll(kept: seq<string>, segs: seq<string>, rooted: bool): seq<string>
    decreases |segs|
  {
    if segs == [] then kept else PushAll(Push(kept, segs[0], rooted), segs[1..], rooted)
  }

  predicate IsAbs(p: string) { p != "" && p[0] == '/' }

  function Clean(p: string): string {
    var kept := PushAll([], Split(p), IsAbs(p));
    if IsAbs(p) then "/" + Slashed(kept) else if kept == [] then "." else Slashed(kept)
  }

  /** Everything up to and including the last slash. */
  function DirPart(p: string): string {
    if p == "" then "" else if p[|p| - 1] == '/' then p else DirPart(p[..|p| - 1])
  }

  function Dir(p: string): string { Clean(DirPart(p)) }

  function Join(a: string, b: string): string {
    if a == "" && b == "" then "" else if a == "" then Clean(b) else if b == "" then Clean(a) else Clean(a + "/" + b)
  }

  function TrimSlashes(p: string): string {
    if p != "" && p[|p| - 1] == '/' then TrimSlashes(p[..|p| - 1]) else p
  }

  /** Everything after the last slash. */
  function LastElement(p: string): string {
    if p == "" then "" else if p[|p| - 1] == '/' then "" else LastElement(p[..|p| - 1]) + [p[|p| - 1]]
  }

  function Base(p: string): string {
    if p == "" then "."
    else
      var last := LastElement(TrimSlashes(p));
      if last == "" then "/" else last
  }

  /** The suffix from the last dot of the last element; nothing when that element has no dot. */
  function Ext(p: string): string {
    if p == "" || p[|p| - 1] == '/' then ""
    else if p[|p| - 1] == '.' then "."
    else
      var e := Ext(p[..|p| - 1]);
      if e == "" then "" else e + [p[|p| - 1]]
  }

  predicate HasPrefix(s: string, prefix: string) { prefix <= s }

  predicate HasSuffix(s: string, suffix: string) {
    |suffix| <= |s| && s[|s| - |suffix|..] == suffix
  }

  function TrimSuffix(s: string, suffix: string): string {
    if HasSuffix(s, suffix) then s[..|s| - |suffix|] else s
  }

  // -------------------------------------------------- how these compute

  lemma {:induction false} SplitPlain(s: string)
    requires '/' !in s
    ensures Split(s) == [s]
  {
    if s != "" {
      SplitPlain(s[1..]);
      assert s == [s[0]] + s[1..];
    }
  }

  lemma {:induction false} SplitAtSlash(s: string, rest: string)
    requires '/' !in s
    ensures Split(s + "/" + rest) == [s] + Split(rest)
  {
    var p := s + "/" + rest;
    if s == "" {
      assert p[1..] == rest;
    } else {
      SplitAtSlash(s[1..], rest);
      assert p[1..] == s[1..] + "/" + rest;
      assert [p[0]] + s[1..] == s;
    }
  }

  lemma {:induction false} LastOfPlain(s: string)
    requires '/' !in s
    ensures LastElement(s) == s
  {
    if s != "" {
      LastOfPlain(s[..|s| - 1]);
      assert s == s[..|s| - 1] + [s[|s| - 1]];
    }
  }

  lemma {:induction false} ExtAtDot(s: string, e: string)
    requires '/' !in e && '.' !in e
    ensures Ext(s + "." + e) == "." + e
  {
    var p := s + "." + e;
    if e != "" {
      ExtAtDot(s, e[..|e| - 1]);
      assert p[..|p| - 1] == s + "." + e[..|e| - 1];
      assert "." + e == "." + e[..|e| - 1] + [e[|e| - 1]];
    }
  }

  lemma {:induction false} DirOfSlash(d: string, last: string)
    requires '/' !in last
    ensures DirPart(d + "/" + last) == d + "/"
  {
    var p := d + "/" + last;
    if last != "" {
      DirOfSlash(d, last[..|last| - 1]);
      assert p[..|p| - 1] == d + "/" + last[..|last| - 1];
    }
  }

  /** An ordinary path element. */
  predicate Plain(s: string) { s != "" && '/' !in s && s != "." && s != ".." }

  lemma {:induction false} PushAllJoin(kept: seq<string>, a: seq<string>, b: seq<string>, rooted: bool)
    ensures PushAll(kept, a + b, rooted) == PushAll(PushAll(kept, a, rooted), b, rooted)
    decreases |a|
  {
    hide Push;
    if a == [] {
      assert a + b == b;
    } else {
      assert (a + b)[0] == a[0] && (a + b)[1..] == a[1..] + b;
      PushAllJoin(Push(kept, a[0], rooted), a[1..], b, rooted);
    }
  }

  lemma {:induction false} PushPlain(kept: seq<string>, segs: seq<string>, rooted: bool)
    requires forall s | s in segs :: Plain(s)
    ensures PushAll(kept, segs, rooted) == kept + segs
    decreases |segs|
  {
    if segs != [] {
      assert Plain(segs[0]) && Push(kept, segs[0], rooted) == kept + [segs[0]];
      PushPlain(kept + [segs[0]], segs[1..], rooted);
      assert kept + [segs[0]] + segs[1..] == kept + segs;
    } else {
      assert kept + segs == kept;
    }
  }

  lemma PushEmpty(kept: seq<string>, rooted: bool)
    ensures PushAll(kept, [""], rooted) == kept
  {
    assert PushAll(kept, [""], rooted) == PushAll(Push(kept, "", rooted), [], rooted);
  }

  /** A trailing slash after ordinary elements is cleaned away. */
  lemma CleanTrailing(p: string, segs: seq<string>)
    requires Split(p) == segs + [""] && segs != [] && !IsAbs(p) && forall s | s in segs :: Plain(s)
    ensures Clean(p) == Slashed(segs)
  {
    PushAllJoin([], segs, [""], false);
    PushPlain([], segs, false);
    PushEmpty(segs, false);
    assert [] + segs == segs;
  }

  lemma CleanPlain(p: string, segs: seq<string>)
    requires Split(p) == segs && !IsAbs(p) && forall s | s in segs :: Plain(s)
    ensures Clean(p) == Slashed(segs)
  {
    PushPlain([], segs, false);
    assert [] + segs == segs;
  }

  lemma DirOne(a: string, m: string)
    requires Plain(a) && '/' !in m
    ensures Dir(a + "/" + m) == a
  {
    DirOfSlash(a, m);
    SplitAtSlash(a, "");
    assert a + "/" + "" == a + "/" && a[0] != '/';
    assert Split(a + "/") == [a] + [""];
    CleanTrailing(a + "/", [a]);
  }

  lemma CleanTwo(a: string, b: string)
    requires Plain(a) && Plain(b)
    ensures Clean(a + "/" + b + "/") == a + "/" + b
    ensures Clean(a + "/" + b) == a + "/" + b
  {
    SplitPlain(b);
    SplitAtSlash(a, b);
    assert (a + "/" + b)[0] == a[0] != '/';
    CleanPlain(a + "/" + b, [a, b]);
    var p := a + "/" + b + "/";
    SplitAtSlash(b, "");
    SplitAtSlash(a, b + "/" + "");
    assert p == a + "/" + (b + "/" + "") && p[0] == a[0] != '/';
    assert Split(p) == [a, b] + [""];
    CleanTrailing(p, [a, b]);
    assert [a, b][1..] == [b];
  }

  // ----------------------------------------------- clean relative paths

  /** How one more leading character changes the pieces. */
  function Grow(c: char, segs: seq<string>): seq<string>
    requires segs != []
  {
    if c == '/' then [""] + segs else [[c] + segs[0]] + segs[1..]
  }

  lemma SplitHead(c: char, p: string)
    ensures Split([c] + p) == Grow(c, Split(p))
  {
    assert ([c] + p)[1..] == p;
  }

  lemma GrowJoin(c: char, a: seq<string>, b: seq<string>)
    requires a != []
    ensures Grow(c, a + b) == Grow(c, a) + b
  {
    assert (a + b)[1..] == a[1..] + b;
  }

  lemma {:induction false} SplitJoin(a: string, b: string)
    ensures Split(a + "/" + b) == Split(a) + Split(b)
  {
    if a == "" {
      SplitHead('/', b);
      assert a + "/" + b == ['/'] + b;
    } else {
      var (c, t) := (a[0], a[1..]);
      assert a == [c] + t && a + "/" + b == [c] + (t + "/" + b);
      SplitJoin(t, b);
      SplitHead(c, t);
      SplitHead(c, t + "/" + b);
      GrowJoin(c, Split(t), Split(b));
    }
  }

  lemma {:induction false} SlashedJoin(a: seq<string>, b: seq<string>)
    requires a != [] && b != []
    ensures Slashed(a + b) == Slashed(a) + "/" + Slashed(b)
  {
    if |a| == 1 {
      assert (a + b)[1..] == b;
    } else {
      SlashedJoin(a[1..], b);
      assert (a + b)[1..] == a[1..] + b;
      assert a[0] + "/" + (Slashed(a[1..]) + "/" + Slashed(b)) == (a[0] + "/" + Slashed(a[1..])) + "/" + Slashed(b);
    }
  }

  lemma SlashedCons(s: string, rest: seq<string>)
    requires rest != []
    ensures Slashed([s] + rest) == s + "/" + Slashed(rest)
  {
    assert ([s] + rest)[1..] == rest;
  }

  lemma SlashedPrepend(c: char, segs: seq<string>)
    requires segs != []
    ensures Slashed([[c] + segs[0]] + segs[1..]) == [c] + Slashed(segs)
  {
    if |segs| > 1 {
      SlashedCons([c] + segs[0], segs[1..]);
      Regroup([c], segs[0], Slashed(segs[1..]));
    } else {
      assert [[c] + segs[0]] + segs[1..] == [[c] + segs[0]];
    }
  }

  lemma Regroup(a: string, b: string, c: string)
    ensures a + b + "/" + c == a + (b + "/" + c)
  {
  }

  lemma {:induction false} SlashedSplit(p: string)
    ensures Slashed(Split(p)) == p
  {
    if p != "" {
      SlashedSplit(p[1..]);
      if p[0] == '/' { SlashedCons("", Split(p[1..])); } else { SlashedPrepend(p[0], Split(p[1..])); }
      assert p == [p[0]] + p[1..];
    }
  }

  lemma {:induction false} SplitSlashed(segs: seq<string>)
    requires segs != [] && forall s | s in segs :: '/' !in s
    ensures Split(Slashed(segs)) == segs
  {
    assert segs[0] in segs;
    if |segs| == 1 {
      SplitPlain(segs[0]);
    } else {
      SplitSlashed(segs[1..]);
      SplitAtSlash(segs[0], Slashed(segs[1..]));
    }
  }

  lemma {:induction false} NoSlashInPieces(p: string)
    ensures forall s | s in Split(p) :: '/' !in s
  {
    if p != "" { NoSlashInPieces(p[1..]); }
  }

  /** What cleaning leaves: no empty or "." element, and ".." only in front. */
  ghost predicate Normal(kept: seq<string>) {
    && (forall s | s in kept :: s != "" && s != "." && '/' !in s)
    && (forall i, j | 0 <= i < j < |kept| && kept[j] == ".." :: kept[i] == "..")
  }

  lemma {:induction false} PushAllNormal(kept: seq<string>, segs: seq<string>, rooted: bool)
    requires Normal(kept) && forall s | s in segs :: '/' !in s
    ensures Normal(PushAll(kept, segs, rooted))
    decreases |segs|
  {
    if segs != [] {
      assert segs[0] in segs;
      var kept' := Push(kept, segs[0], rooted);
      if segs[0] == ".." && (kept == [] || kept[|kept| - 1] == "..") {
        forall i | 0 <= i < |kept| ensures kept[i] == ".." { }
      }
      assert Normal(kept');
      PushAllNormal(kept', segs[1..], rooted);
    }
  }

  /** The names `Unpack` lets through: relative, already clean, at or below `idl`. */
  predicate UnderIdl(p: string) { p == "idl" || HasPrefix(p, "idl/") }

  /** A clean relative path other than "." is what its own elements spell, and they are normal. */
  lemma CleanIsNormal(p: string)
    requires Clean(p) == p && !IsAbs(p) && p != "."
    ensures Normal(Split(p))
  {
    var kept := PushAll([], Split(p), false);
    NoSlashInPieces(p);
    PushAllNormal([], Split(p), false);
    assert p == Slashed(kept) && kept != [];
    SplitSlashed(kept);
  }

  lemma FirstUnderIdl(p: string)
    requires UnderIdl(p)
    ensures !IsAbs(p) && p != "." && Split(p)[0] == "idl"
    ensures p == "idl" <==> |Split(p)| == 1
  {
    if p == "idl" {
      SplitPlain("idl");
    } else {
      assert p == "idl" + "/" + p[4..];
      SplitAtSlash("idl", p[4..]);
    }
  }

  /** The elements of a clean path under `idl` are all ordinary. */
  lemma CleanElements(p: string)
    requires Clean(p) == p && UnderIdl(p)
    ensures Split(p)[0] == "idl" && forall s | s in Split(p) :: Plain(s)
    ensures p == "idl" <==> |Split(p)| == 1
  {
    FirstUnderIdl(p);
    CleanIsNormal(p);
    NoDots(Split(p));
  }

  lemma DotsInFront(segs: seq<string>, j: nat)
    requires Normal(segs) && j < |segs|
    ensures segs[j] == ".." ==> segs[0] == ".."
  {
  }

  lemma NoDots(segs: seq<string>)
    requires Normal(segs) && segs != [] && segs[0] != ".."
    ensures forall s | s in segs :: Plain(s)
  {
    forall s | s in segs ensures s != ".." {
      var j :| 0 <= j < |segs| && segs[j] == s;
      DotsInFront(segs, j);
    }
  }

  /** Cleaning rests on four rewritings of the elements: empty ones and "." go, an ordinary element
      goes with the ".." after it, and so does a ".." at the root. */
  lemma CleanRewrites(p: string, q: string, a: seq<string>, gone: seq<string>, b: seq<string>)
    requires Split(p) == a + gone + b && Split(q) == a + b && (IsAbs(p) <==> IsAbs(q))
    requires
      || gone == [""] || gone == ["."]
      || (|gone| == 2 && gone[0] !in ["", ".", ".."] && gone[1] == "..")
      || (gone == [".."] && IsAbs(p) && forall s | s in a :: s == "")
    ensures Clean(p) == Clean(q)
  {
    var rooted := IsAbs(p);
    PushAllJoin([], a + gone, b, rooted);
    PushAllJoin([], a, gone, rooted);
    PushAllJoin([], a, b, rooted);
    var kept := PushAll([], a, rooted);
    if gone == [".."] { PushNothing(a, rooted); }
    if |gone| == 2 {
      assert gone == [gone[0]] + [".."];
      PushAllJoin(kept, [gone[0]], [".."], rooted);
      PushOne(kept, gone[0], rooted);
      PushOne(kept + [gone[0]], "..", rooted);
    } else {
      assert gone == [gone[0]];
      PushOne(kept, gone[0], rooted);
    }
    assert PushAll(kept, gone, rooted) == kept;
  }

  lemma PushOne(kept: seq<string>, s: string, rooted: bool)
    ensures PushAll(kept, [s], rooted) == Push(kept, s, rooted)
  {
    assert PushAll(kept, [s], rooted) == PushAll(Push(kept, s, rooted), [], rooted);
  }

  lemma {:induction false} PushNothing(a: seq<string>, rooted: bool)
    requires forall s | s in a :: s == ""
    ensures PushAll([], a, rooted) == []
    decreases |a|
  {
    if a != [] {
      assert a[0] in a && forall s | s in a[1..] :: s in a;
      PushNothing(a[1..], rooted);
    }
  }

  /** Where none of them applies a path is clean already. */
  lemma CleanStops(segs: seq<string>)
    requires segs != [] && forall s | s in segs :: s != "" && s != "." && '/' !in s
    requires forall i, j | 0 <= i < j < |segs| && segs[j] == ".." :: segs[i] == ".."
    ensures Clean(Slashed(segs)) == Slashed(segs)
    ensures segs[0] != ".." ==> Clean("/" + Slashed(segs)) == "/" + Slashed(segs)
  {
    hide Push, Slashed;
    SplitSlashed(segs);
    var p := Slashed(segs);
    assert segs[0] in segs;
    NoLeadingSlash(p);
    assert [] + segs == segs;
    PushKeeps([], segs);
    if segs[0] != ".." {
      NoDots(segs);
      RootedSplit(p);
      PushAllJoin([], [""], segs, true);
      PushEmpty([], true);
      PushPlain([], segs, true);
    }
  }

  lemma NoLeadingSlash(p: string)
    requires Split(p)[0] != ""
    ensures !IsAbs(p) && p != ""
  {
  }

  lemma RootedSplit(p: string)
    ensures Split("/" + p) == [""] + Split(p) && IsAbs("/" + p)
  {
    SplitHead('/', p);
    assert "/" + p == ['/'] + p;
  }

  lemma CleanEmpty()
    ensures Clean("") == Clean(".") == "." && Clean("/") == "/"
  {
    PushOne([], "", false);
    PushOne([], ".", false);
    SplitPlain(".");
    RootedSplit("");
    assert "/" + "" == "/" && [""] + [""] == ["", ""];
    PushAllJoin([], [""], [""], true);
    PushEmpty([], true);
  }

  lemma {:induction false} PushKeeps(kept: seq<string>, segs: seq<string>)
    requires Normal(kept + segs)
    ensures PushAll(kept, segs, false) == kept + segs
    decreases |segs|
  {
    var all := kept + segs;
    if segs != [] {
      assert all[|kept|] == segs[0] && segs[0] in all;
      if segs[0] == ".." && kept != [] { assert all[|kept| - 1] == kept[|kept| - 1] == ".."; }
      assert kept + [segs[0]] + segs[1..] == all;
      PushKeeps(kept + [segs[0]], segs[1..]);
    } else {
      assert all == kept;
    }
  }

  lemma DirOfPlain(s: string)
    requires '/' !in s
    ensures DirPart(s) == ""
    decreases s
  {
    if s != "" { DirOfPlain(s[..|s| - 1]); }
  }

  lemma HeadOfSlashed(segs: seq<string>)
    requires segs != [] && Plain(segs[0])
    ensures Slashed(segs) != "" && Slashed(segs)[0] == segs[0][0] != '/'
  {
  }

  lemma DirOfJoin(d: string, segs: seq<string>, last: string)
    requires segs != [] && (forall s | s in segs :: Plain(s)) && '/' !in last && d == Slashed(segs)
    ensures Dir(d + "/" + last) == d
  {
    DirOfSlash(d, last);
    SplitJoin(d, "");
    SplitSlashed(segs);
    assert d + "/" + "" == d + "/";
    assert segs[0] in segs;
    HeadOfSlashed(segs);
    CleanTrailing(d + "/", segs);
  }

  lemma DirSingle(s: string)
    requires '/' !in s
    ensures Dir(s) == "."
  {
    DirOfPlain(s);
    PushEmpty([], false);
    assert Clean("") == ".";
  }

  /** `path.Dir` drops the last element; `DirSingle` is the case of a single one. */
  lemma DirMany(init: seq<string>, last: string)
    requires init != [] && (forall s | s in init :: Plain(s)) && '/' !in last
    ensures Dir(Slashed(init + [last])) == Slashed(init)
  {
    SlashedJoin(init, [last]);
    DirOfJoin(Slashed(init), init, last);
  }

  /** A clean path lies below `a` exactly when `a` consists of its leading elements. */
  lemma AncestorElements(p: string, a: string)
    ensures HasPrefix(p, a + "/") <==> exists j :: 0 < j < |Split(p)| && a == Slashed(Split(p)[..j])
  {
    var segs := Split(p);
    if HasPrefix(p, a + "/") { LeadingElements(p, a, p[|a| + 1..]); }
    if j :| 0 < j < |segs| && a == Slashed(segs[..j]) {
      SlashedSplit(p);
      SlashedJoin(segs[..j], segs[j..]);
      assert segs[..j] + segs[j..] == segs;
    }
  }

  lemma LeadingElements(p: string, a: string, rest: string)
    requires p == a + "/" + rest
    ensures |Split(a)| < |Split(p)| && a == Slashed(Split(p)[..|Split(a)|])
  {
    SplitJoin(a, rest);
    SlashedSplit(a);
    assert (Split(a) + Split(rest))[..|Split(a)|] == Split(a);
  }
}
