/**
 The chunked contract store: write-once chunks followed by a completion marker,
 under any number of concurrent writers that may fail at any operation.

 `hash` stands for hex(SHA-256) and `unpackable` for the ZIP checks; nothing is
 assumed of either, in particular not that `hash` is injective.
 */
module ContractStore {
  import opened Prelude

  const CHUNK: nat := 262144
  const MAX_ARCHIVE: nat := 33554432

  /** The keys under `<prefix>-contracts/<digest>/`. */
  datatype Key = Chunk(digest: string, index: nat) | Complete(digest: string)

  type Kv = map<Key, Bytes>

  /** `^[0-9a-f]{64}$` */
  predicate IsRevision(d: string) {
    |d| == 64 && forall i | 0 <= i < |d| :: '0' <= d[i] <= '9' || 'a' <= d[i] <= 'f'
  }

  /** Sixty-four lower-case hexadecimal digits. */
  lemma RevisionExact(d: string)
    ensures IsRevision(d) <==> |d| == 64 && forall c :: c in d ==> c in "0123456789abcdef"
  {
    if |d| == 64 && forall c :: c in d ==> c in "0123456789abcdef" {
      forall i | 0 <= i < |d| ensures '0' <= d[i] <= '9' || 'a' <= d[i] <= 'f' { assert d[i] in d; }
    }
    if IsRevision(d) {
      forall c | c in d ensures c in "0123456789abcdef" { HexDigit(c); }
    }
  }

  lemma HexDigit(c: char)
    requires '0' <= c <= '9' || 'a' <= c <= 'f'
    ensures c in "0123456789abcdef"
  {
    var digits := "0123456789abcdef";
    if c <= '9' { assert digits[c as int - 48] == c; } else { assert digits[c as int - 87] == c; }
  }

  // -------------------------------------------------------------- decimals

  function Itoa(n: nat): (r: Bytes)
    ensures r != [] && forall i | 0 <= i < |r| :: 48 <= r[i] <= 57
  {
    if n < 10 then [48 + n] else Itoa(n / 10) + [48 + n % 10]
  }

  function Digits(s: Bytes): Option<nat> {
    if s == [] then Some(0)
    else
      var last := s[|s| - 1];
      var init := Digits(s[..|s| - 1]);
      if last < 48 || last > 57 || init.None? then None
      else
        var digit: nat := last - 48;
        Some(init.value * 10 + digit)
  }

  /** `strconv.Atoi`; the 64-bit range needs no case of its own since every size above
      `MAX_ARCHIVE` is refused anyway. */
  function Atoi(s: Bytes): Option<int> {
    var signed := s != [] && (s[0] == 43 || s[0] == 45);
    var digits := if signed then s[1..] else s;
    var n := Digits(digits);
    if digits == [] || n.None? then None
    else
      var magnitude: int := n.value;
      Some(if signed && s[0] == 45 then -magnitude else magnitude)
  }

  lemma {:induction false} DigitsOfItoa(n: nat)
    ensures Digits(Itoa(n)) == Some(n)
  {
    if n < 10 {
      assert Itoa(n)[..0] == [];
    } else {
      DigitsOfItoa(n / 10);
      assert Itoa(n)[..|Itoa(n)| - 1] == Itoa(n / 10);
    }
  }

  lemma AtoiOfItoa(n: nat)
    ensures Atoi(Itoa(n)) == Some(n)
  {
    DigitsOfItoa(n);
  }

  // -------------------------------------------------------------- layout

  function Min(a: nat, b: nat): nat { if a < b then a else b }

  function ChunkCount(a: Bytes): nat { (|a| + CHUNK - 1) / CHUNK }

  function ChunkAt(a: Bytes, i: nat): Bytes
    requires i < ChunkCount(a)
  {
    a[i * CHUNK..Min((i + 1) * CHUNK, |a|)]
  }

  predicate Uploadable(a: Bytes) { 0 < |a| <= MAX_ARCHIVE }

  /** The first `n` chunks of `a` are in place. */
  ghost predicate HasChunks(kv: Kv, d: string, a: Bytes, n: nat)
    requires n <= ChunkCount(a)
  {
    forall i | 0 <= i < n :: Chunk(d, i) in kv && kv[Chunk(d, i)] == ChunkAt(a, i)
  }

  /** The contract `d` is completely stored and is the archive `a`. */
  ghost predicate Stored(kv: Kv, d: string, a: Bytes) {
    && Uploadable(a)
    && HasChunks(kv, d, a, ChunkCount(a))
    && Complete(d) in kv && Atoi(kv[Complete(d)]) == Some(|a|)
  }

  /** Nothing is ever overwritten or deleted. */
  ghost predicate Extends(kv: Kv, kv': Kv) {
    forall k | k in kv :: k in kv' && kv'[k] == kv[k]
  }

  /** Every completion marker speaks the truth. */
  ghost predicate Sealed(kv: Kv, hash: Bytes -> string) {
    forall d | Complete(d) in kv :: exists a :: Stored(kv, d, a) && hash(a) == d
  }

  lemma StoredForever(kv: Kv, kv': Kv, d: string, a: Bytes)
    requires Stored(kv, d, a) && Extends(kv, kv')
    ensures Stored(kv', d, a)
  {
  }

  lemma JoinChunks(a: Bytes, i: nat)
    requires i < ChunkCount(a)
    ensures i * CHUNK < |a|
    ensures a[..i * CHUNK] + ChunkAt(a, i) == a[..Min((i + 1) * CHUNK, |a|)]
    ensures |ChunkAt(a, i)| == Min(CHUNK, |a| - i * CHUNK)
    ensures (i + 1) * CHUNK < |a| <==> i + 1 < ChunkCount(a)
  {
  }

  /** The stored keys determine the archive: two archives cannot both be complete under one digest. */
  lemma {:induction false} StoredAgree(kv: Kv, d: string, a: Bytes, b: Bytes, n: nat)
    requires Stored(kv, d, a) && Stored(kv, d, b) && n <= ChunkCount(a)
    ensures |a| == |b| && a[..Min(n * CHUNK, |a|)] == b[..Min(n * CHUNK, |a|)]
  {
    if n > 0 {
      StoredAgree(kv, d, a, b, n - 1);
      JoinChunks(a, n - 1);
      JoinChunks(b, n - 1);
    }
  }

  lemma StoredUnique(kv: Kv, d: string, a: Bytes, b: Bytes)
    requires Stored(kv, d, a) && Stored(kv, d, b)
    ensures a == b
  {
    StoredAgree(kv, d, a, b, ChunkCount(a));
    JoinChunks(a, ChunkCount(a) - 1);
    assert a[..|a|] == a && b[..|b|] == b;
  }

  // ------------------------------------- any number of writers and readers

  /** The digest and the ZIP checks. */
  datatype Library = Library(hash: Bytes -> string, unpackable: Bytes -> bool)

  /** A `PutContract` call; `confirmed` counts the `putImmutable` calls that returned nil. */
  datatype Writer = Writer(digest: string, archive: Bytes, confirmed: nat)

  /** A `GetContract` call: before the marker, between chunks, or answered. */
  datatype Reader =
    | Asking(digest: string)
    | Reading(digest: string, size: nat, data: Bytes, next: nat)
    | Answer(digest: string, data: Bytes)

  datatype System = System(kv: Kv, writers: map<nat, Writer>, readers: map<nat, Reader>)

  /** What `PutContract` checks before it writes. */
  predicate Genuine(w: Writer, hash: Bytes -> string) {
    IsRevision(w.digest) && Uploadable(w.archive) && hash(w.archive) == w.digest
  }

  predicate Finished(w: Writer) { w.confirmed == ChunkCount(w.archive) + 1 }

  /** The write-once operation the call performs next: the chunks in order, then the marker. */
  function NextPut(w: Writer): (Key, Bytes)
    requires w.confirmed <= ChunkCount(w.archive)
  {
    if w.confirmed < ChunkCount(w.archive) then (Chunk(w.digest, w.confirmed), ChunkAt(w.archive, w.confirmed))
    else (Complete(w.digest), Itoa(|w.archive|))
  }

  /** The size a marker declares, if it is one that a read accepts. */
  function SizeAt(kv: Kv, d: string): Option<nat> {
    if Complete(d) !in kv then None
    else
      var size := Atoi(kv[Complete(d)]);
      if size.Some? && 0 < size.value <= MAX_ARCHIVE then Some(size.value) else None
  }

  datatype Move =
    | Begin(id: nat, w: Writer)     // a call passes the size and digest checks
    | Win(id: nat, answered: bool)  // the CAS takes effect; its answer may be lost
    | Agree(id: nat)                // the key already holds the same bytes
    | Stop(id: nat)                 // crash, conflict, or an error without effect
    | Ask(id: nat, digest: string)  // a read of an exact revision
    | TakeMarker(id: nat)
    | TakeChunk(id: nat)
    | Conclude(id: nat)             // the last chunk is in, digest and ZIP checks pass
    | Quit(id: nat)                 // crash or any error of a read

  ghost predicate Step(s: System, m: Move, s': System, lib: Library) {
    match m
    case Begin(id, w) =>
      id !in s.writers && Genuine(w, lib.hash) && w.confirmed == 0 && s' == s.(writers := s.writers[id := w])
    case Win(id, answered) =>
      && id in s.writers && s.writers[id].confirmed <= ChunkCount(s.writers[id].archive)
      && var w, (k, v) := s.writers[id], NextPut(s.writers[id]);
        && k !in s.kv
        && s' == s.(kv := s.kv[k := v],
                    writers := if answered then s.writers[id := w.(confirmed := w.confirmed + 1)] else s.writers - {id})
    case Agree(id) =>
      && id in s.writers && s.writers[id].confirmed <= ChunkCount(s.writers[id].archive)
      && var w, (k, v) := s.writers[id], NextPut(s.writers[id]);
        && k in s.kv && s.kv[k] == v
        && s' == s.(writers := s.writers[id := w.(confirmed := w.confirmed + 1)])
    case Stop(id) => id in s.writers && s' == s.(writers := s.writers - {id})
    case Ask(id, d) => id !in s.readers && IsRevision(d) && s' == s.(readers := s.readers[id := Asking(d)])
    case TakeMarker(id) =>
      && id in s.readers && s.readers[id].Asking? && SizeAt(s.kv, s.readers[id].digest).Some?
      && var d := s.readers[id].digest;
        s' == s.(readers := s.readers[id := Reading(d, SizeAt(s.kv, d).value, [], 0)])
    case TakeChunk(id) =>
      && id in s.readers && s.readers[id].Reading?
      && var r := s.readers[id];
        && |r.data| < r.size && Chunk(r.digest, r.next) in s.kv
        && |s.kv[Chunk(r.digest, r.next)]| == Min(CHUNK, r.size - |r.data|)
        && s' == s.(readers := s.readers[id := r.(data := r.data + s.kv[Chunk(r.digest, r.next)], next := r.next + 1)])
    case Conclude(id) =>
      && id in s.readers && s.readers[id].Reading?
      && var r := s.readers[id];
        && |r.data| == r.size && lib.hash(r.data) == r.digest && lib.unpackable(r.data)
        && s' == s.(readers := s.readers[id := Answer(r.digest, r.data)])
    case Quit(id) => id in s.readers && s' == s.(readers := s.readers - {id})
  }

  ghost predicate StepAt(states: seq<System>, moves: seq<Move>, i: nat, lib: Library)
    requires i < |moves| < |states|
  {
    Step(states[i], moves[i], states[i + 1], lib)
  }

  ghost predicate Run(states: seq<System>, moves: seq<Move>, lib: Library) {
    && |states| == |moves| + 1
    && states[0] == System(map[], map[], map[])
    && forall i | 0 <= i < |moves| :: StepAt(states, moves, i, lib)
  }

  /** What a call knows after its confirmations. */
  ghost predicate Progress(kv: Kv, w: Writer) {
    && w.confirmed <= ChunkCount(w.archive) + 1
    && HasChunks(kv, w.digest, w.archive, Min(w.confirmed, ChunkCount(w.archive)))
    && (Finished(w) ==> Stored(kv, w.digest, w.archive))
  }

  /** `data` is what the first `i` chunks say, and they have the lengths that `size` prescribes. */
  ghost predicate ReadTo(kv: Kv, d: string, size: nat, data: Bytes, i: nat) {
    && |data| == Min(i * CHUNK, size)
    && forall k | 0 <= k < i ::
         && k * CHUNK < size && Chunk(d, k) in kv
         && kv[Chunk(d, k)] == data[k * CHUNK..Min((k + 1) * CHUNK, size)]
  }

  /** The contract is completely stored, and a read of it passes every check. */
  ghost predicate Kept(kv: Kv, d: string, a: Bytes, lib: Library) {
    IsRevision(d) && Stored(kv, d, a) && lib.hash(a) == d && lib.unpackable(a)
  }

  /** What a read in progress, or its answer, says about the store. */
  ghost predicate Gathered(kv: Kv, r: Reader, lib: Library) {
    && IsRevision(r.digest)
    && (r.Reading? ==> SizeAt(kv, r.digest) == Some(r.size) && ReadTo(kv, r.digest, r.size, r.data, r.next))
    && (r.Answer? ==> Kept(kv, r.digest, r.data, lib))
  }

  ghost predicate Inv(s: System, lib: Library) {
    && Sealed(s.kv, lib.hash)
    && (forall id | id in s.writers :: Genuine(s.writers[id], lib.hash) && Progress(s.kv, s.writers[id]))
    && forall id | id in s.readers :: Gathered(s.kv, s.readers[id], lib)
  }

  /** What `putImmutable` may do to the store for this call: create the key, or find the same bytes. */
  ghost predicate Puts(kv: Kv, w: Writer, kv': Kv)
    requires w.confirmed <= ChunkCount(w.archive)
  {
    var (k, v) := NextPut(w);
    (k !in kv && kv' == kv[k := v]) || (k in kv && kv[k] == v && kv' == kv)
  }

  lemma PutProgresses(kv: Kv, w: Writer, kv': Kv)
    requires Uploadable(w.archive) && Progress(kv, w) && !Finished(w) && Puts(kv, w, kv')
    ensures Extends(kv, kv') && Progress(kv', w.(confirmed := w.confirmed + 1))
    ensures forall d :: Complete(d) in kv' && Complete(d) !in kv ==> d == w.digest && w.confirmed == ChunkCount(w.archive)
  {
    hide ChunkAt, Itoa, Atoi;
    AtoiOfItoa(|w.archive|);
  }

  /** One put keeps every marker truthful and brings the caller one part further. */
  lemma PutKeeps(kv: Kv, w: Writer, kv': Kv, hash: Bytes -> string)
    requires Sealed(kv, hash) && Genuine(w, hash) && Progress(kv, w) && !Finished(w) && Puts(kv, w, kv')
    ensures Extends(kv, kv') && Sealed(kv', hash)
    ensures Progress(kv', w.(confirmed := w.confirmed + 1))
  {
    hide Stored, HasChunks, Puts, Extends;
    PutProgresses(kv, w, kv');
    forall d | Complete(d) in kv' ensures exists a :: Stored(kv', d, a) && hash(a) == d {
      if Complete(d) in kv {
        var a :| Stored(kv, d, a) && hash(a) == d;
        StoredForever(kv, kv', d, a);
      } else {
        assert Stored(kv', d, w.archive);
      }
    }
  }

  lemma WritersKept(s: System, m: Move, s': System, lib: Library)
    requires Inv(s, lib) && Step(s, m, s', lib) && Extends(s.kv, s'.kv)
    requires m.Win? || m.Agree? ==> Progress(s'.kv, s.writers[m.id].(confirmed := s.writers[m.id].confirmed + 1))
    ensures forall id | id in s'.writers :: Genuine(s'.writers[id], lib.hash) && Progress(s'.kv, s'.writers[id])
  {
    forall id | id in s'.writers ensures Genuine(s'.writers[id], lib.hash) && Progress(s'.kv, s'.writers[id]) {
      if id in s.writers && s'.writers[id] == s.writers[id] {
        var w := s.writers[id];
        if Finished(w) { StoredForever(s.kv, s'.kv, w.digest, w.archive); }
      }
    }
  }

  lemma GatheredForever(kv: Kv, kv': Kv, r: Reader, lib: Library)
    requires Gathered(kv, r, lib) && Extends(kv, kv')
    ensures Gathered(kv', r, lib)
  {
    if r.Answer? { StoredForever(kv, kv', r.digest, r.data); }
  }

  /** A read that goes one step further knows that much more. */
  lemma ReaderAdvances(s: System, m: Move, s': System, lib: Library)
    requires Step(s, m, s', lib) && (m.TakeMarker? || m.TakeChunk? || m.Conclude?)
    requires Gathered(s.kv, s.readers[m.id], lib)
    ensures s'.kv == s.kv && Gathered(s'.kv, s'.readers[m.id], lib)
  {
    var r := s.readers[m.id];
    if m.TakeChunk? { ReadOne(s.kv, s.kv, r.digest, r.size, r.data, r.next); }
    if m.Conclude? { ReadAll(s.kv, r.digest, r.size, r.data, r.next); }
  }

  lemma ReadersKept(s: System, m: Move, s': System, lib: Library)
    requires Inv(s, lib) && Step(s, m, s', lib) && Extends(s.kv, s'.kv)
    ensures forall id | id in s'.readers :: Gathered(s'.kv, s'.readers[id], lib)
  {
    hide Gathered;
    forall id | id in s'.readers ensures Gathered(s'.kv, s'.readers[id], lib) {
      if id in s.readers && s'.readers[id] == s.readers[id] {
        GatheredForever(s.kv, s'.kv, s.readers[id], lib);
      } else if m.Ask? {
        AskingKnowsNothing(s'.kv, m.digest, lib);
      } else {
        ReaderAdvances(s, m, s', lib);
      }
    }
  }

  lemma AskingKnowsNothing(kv: Kv, d: string, lib: Library)
    requires IsRevision(d)
    ensures Gathered(kv, Asking(d), lib)
  {
  }

  lemma StepKeeps(s: System, m: Move, s': System, lib: Library)
    requires Inv(s, lib) && Step(s, m, s', lib)
    ensures Extends(s.kv, s'.kv) && Inv(s', lib)
  {
    hide Gathered, Sealed, Genuine, HasChunks, Stored;
    if m.Win? || m.Agree? { PutKeeps(s.kv, s.writers[m.id], s'.kv, lib.hash); }
    WritersKept(s, m, s', lib);
    ReadersKept(s, m, s', lib);
  }

  lemma {:induction false} RunKeeps(states: seq<System>, moves: seq<Move>, lib: Library, i: nat)
    requires Run(states, moves, lib) && i < |states|
    ensures Inv(states[i], lib)
  {
    hide Inv, Step;
    if i > 0 {
      RunKeeps(states, moves, lib, i - 1);
      assert StepAt(states, moves, i - 1, lib);
      StepKeeps(states[i - 1], moves[i - 1], states[i], lib);
    } else {
      NothingStored(lib);
    }
  }

  lemma NothingStored(lib: Library)
    ensures Inv(System(map[], map[], map[]), lib)
  {
  }

  lemma {:induction false} OnlyGrows(states: seq<System>, moves: seq<Move>, lib: Library, i: nat, j: nat)
    requires Run(states, moves, lib) && i <= j < |states|
    ensures Extends(states[i].kv, states[j].kv)
  {
    hide Inv, Step;
    if i < j {
      OnlyGrows(states, moves, lib, i, j - 1);
      RunKeeps(states, moves, lib, j - 1);
      assert StepAt(states, moves, j - 1, lib);
      StepKeeps(states[j - 1], moves[j - 1], states[j], lib);
    }
  }

  /** The call whose CAS creates the marker has its own archive, and no other, in place from
      that moment on, whatever the other writers do. */
  lemma MarkerTellsTheTruth(states: seq<System>, moves: seq<Move>, lib: Library, i: nat, j: nat, a: Bytes)
    requires Run(states, moves, lib) && i < |moves| && i < j < |states|
    requires moves[i].Win? && moves[i].id in states[i].writers
    requires states[i].writers[moves[i].id].confirmed == ChunkCount(states[i].writers[moves[i].id].archive)
    ensures Stored(states[j].kv, states[i].writers[moves[i].id].digest, a)
       <==> a == states[i].writers[moves[i].id].archive
  {
    hide Gathered;
    var w := states[i].writers[moves[i].id];
    RunKeeps(states, moves, lib, i);
    assert StepAt(states, moves, i, lib);
    PutKeeps(states[i].kv, w, states[i + 1].kv, lib.hash);
    OnlyGrows(states, moves, lib, i + 1, j);
    StoredForever(states[i + 1].kv, states[j].kv, w.digest, w.archive);
    if Stored(states[j].kv, w.digest, a) { StoredUnique(states[j].kv, w.digest, a, w.archive); }
  }

  /** A marker seen at `i` belongs to a complete archive with that digest, at `i` and ever after. */
  lemma MarkerImpliesStored(states: seq<System>, moves: seq<Move>, lib: Library, i: nat, j: nat, d: string)
    requires Run(states, moves, lib) && i <= j < |states| && Complete(d) in states[i].kv
    ensures exists a :: Stored(states[i].kv, d, a) && Stored(states[j].kv, d, a) && lib.hash(a) == d
  {
    hide Gathered, Progress;
    RunKeeps(states, moves, lib, i);
    OnlyGrows(states, moves, lib, i, j);
    var a :| Stored(states[i].kv, d, a) && lib.hash(a) == d;
    StoredForever(states[i].kv, states[j].kv, d, a);
  }

  /** Once a `PutContract` call has returned nil, its archive is what is stored, for ever. */
  lemma FinishedIsStored(states: seq<System>, moves: seq<Move>, lib: Library, i: nat, j: nat, id: nat, a: Bytes)
    requires Run(states, moves, lib) && i <= j < |states|
    requires id in states[i].writers && Finished(states[i].writers[id])
    ensures Stored(states[j].kv, states[i].writers[id].digest, a) <==> a == states[i].writers[id].archive
  {
    hide Gathered;
    var w := states[i].writers[id];
    RunKeeps(states, moves, lib, i);
    OnlyGrows(states, moves, lib, i, j);
    StoredForever(states[i].kv, states[j].kv, w.digest, w.archive);
    if Stored(states[j].kv, w.digest, a) { StoredUnique(states[j].kv, w.digest, a, w.archive); }
  }

  /** Once a `GetContract` call has answered, what it answered is stored under the digest for ever. */
  lemma AnsweredIsKept(states: seq<System>, moves: seq<Move>, lib: Library, i: nat, j: nat, id: nat)
    requires Run(states, moves, lib) && i <= j < |states|
    requires id in states[i].readers && states[i].readers[id].Answer?
    ensures Kept(states[j].kv, states[i].readers[id].digest, states[i].readers[id].data, lib)
  {
    hide Stored;
    RunKeeps(states, moves, lib, i);
    OnlyGrows(states, moves, lib, i, j);
    var r := states[i].readers[id];
    assert Gathered(states[i].kv, r, lib);
    StoredForever(states[i].kv, states[j].kv, r.digest, r.data);
  }

  /** Part by part: the digest is one and is that of the archive, the archive has a legal size and unpacks, all of
      it is there in pieces of 256 KiB, and the marker gives its length. */
  lemma KeptMeans(kv: Kv, d: string, a: Bytes, lib: Library)
    ensures Kept(kv, d, a, lib) <==>
      && |d| == 64 && (forall c :: c in d ==> c in "0123456789abcdef") && lib.hash(a) == d
      && 0 < |a| <= 33554432 && lib.unpackable(a)
      && (forall i: nat :: i * 262144 < |a| ==>
            && Chunk(d, i) in kv
            && kv[Chunk(d, i)] == a[i * 262144..if (i + 1) * 262144 < |a| then (i + 1) * 262144 else |a|])
      && Complete(d) in kv && Atoi(kv[Complete(d)]) == Some(|a|)
  {
    hide IsRevision, Atoi;
    RevisionExact(d);
    forall i: nat ensures i * CHUNK < |a| <==> i < ChunkCount(a) { }
    forall i: nat | i < ChunkCount(a)
      ensures ChunkAt(a, i) == a[i * 262144..if (i + 1) * 262144 < |a| then (i + 1) * 262144 else |a|]
    {
    }
  }

  /** A read of a contract that is kept is never refused: until it has answered it can go on, and what it
      has so far is a beginning of the archive. */
  lemma KeptIsReadable(s: System, lib: Library, id: nat, a: Bytes)
    requires Inv(s, lib) && id in s.readers && Kept(s.kv, s.readers[id].digest, a, lib)
    ensures s.readers[id].Answer? ==> s.readers[id].data == a
    ensures s.readers[id].Reading? ==> s.readers[id].size == |a| && s.readers[id].data <= a
    ensures s.readers[id].Asking? ==> exists s' :: Step(s, TakeMarker(id), s', lib)
    ensures s.readers[id].Reading? ==>
      (exists s' :: Step(s, TakeChunk(id), s', lib)) || (exists s' :: Step(s, Conclude(id), s', lib))
  {
    hide Stored, Sealed, Step;
    var r := s.readers[id];
    assert Gathered(s.kv, r, lib);
    match r
    case Asking(_) => AskingGoesOn(s, lib, id, a);
    case Answer(_, _) => StoredUnique(s.kv, r.digest, a, r.data);
    case Reading(_, _, _, _) => ReadingGoesOn(s, lib, id, a);
  }

  lemma AskingGoesOn(s: System, lib: Library, id: nat, a: Bytes)
    requires id in s.readers && s.readers[id].Asking? && Kept(s.kv, s.readers[id].digest, a, lib)
    ensures exists s' :: Step(s, TakeMarker(id), s', lib)
  {
    hide HasChunks, ReadTo;
    var r := s.readers[id];
    assert Step(s, TakeMarker(id),
                s.(readers := s.readers[id := Reading(r.digest, SizeAt(s.kv, r.digest).value, [], 0)]), lib);
  }

  lemma ReadingGoesOn(s: System, lib: Library, id: nat, a: Bytes)
    requires id in s.readers && s.readers[id].Reading? && Kept(s.kv, s.readers[id].digest, a, lib)
    requires Gathered(s.kv, s.readers[id], lib)
    ensures s.readers[id].size == |a| && s.readers[id].data <= a
    ensures (exists s' :: Step(s, TakeChunk(id), s', lib)) || (exists s' :: Step(s, Conclude(id), s', lib))
  {
    hide Sealed;
    var r := s.readers[id];
    Beginning(s.kv, r.digest, a, r.size, r.data, r.next);
    if |r.data| < r.size {
      JoinChunks(a, r.next);
      assert Step(s, TakeChunk(id), s.(readers := s.readers[id :=
        r.(data := r.data + s.kv[Chunk(r.digest, r.next)], next := r.next + 1)]), lib);
    } else {
      assert a[..|a|] == a;
      assert Step(s, Conclude(id), s.(readers := s.readers[id := Answer(r.digest, r.data)]), lib);
    }
  }

  /** What has been read of a stored archive is a beginning of it. */
  lemma {:induction false} Beginning(kv: Kv, d: string, a: Bytes, size: nat, data: Bytes, i: nat)
    requires Stored(kv, d, a) && ReadTo(kv, d, size, data, i) && size == |a|
    ensures data == a[..|data|] && (|data| < size ==> i < ChunkCount(a))
  {
    if i > 0 {
      ReadLess(kv, d, size, data, i);
      Beginning(kv, d, a, size, data[..Min((i - 1) * CHUNK, size)], i - 1);
      NextOfStored(kv, d, a, i - 1);
    }
  }

  lemma ReadLess(kv: Kv, d: string, size: nat, data: Bytes, i: nat)
    requires ReadTo(kv, d, size, data, i) && i > 0
    ensures (i - 1) * CHUNK < size && |data| <= size
    ensures var before := data[..Min((i - 1) * CHUNK, size)];
      ReadTo(kv, d, size, before, i - 1) && Chunk(d, i - 1) in kv && data == before + kv[Chunk(d, i - 1)]
  {
    var before := data[..(i - 1) * CHUNK];
    forall k | 0 <= k < i - 1 ensures kv[Chunk(d, k)] == before[k * CHUNK..Min((k + 1) * CHUNK, size)] {
      assert (k + 1) * CHUNK <= (i - 1) * CHUNK;
    }
  }

  lemma NextOfStored(kv: Kv, d: string, a: Bytes, i: nat)
    requires Stored(kv, d, a) && i * CHUNK < |a|
    ensures Chunk(d, i) in kv && a[..i * CHUNK] + kv[Chunk(d, i)] == a[..Min((i + 1) * CHUNK, |a|)]
    ensures (i + 1) * CHUNK < |a| ==> i + 1 < ChunkCount(a)
  {
    assert i < ChunkCount(a);
    JoinChunks(a, i);
  }

  // ------------------------------------------------------- the store's methods

  /** What happens to one operation's messages: it is answered; its CAS fails, possibly after
      taking effect; or the read that follows a lost CAS fails. */
  datatype Fate = Answered | CasFailed(applied: bool) | ReadFailed

  /** What other replicas do to the store while a call waits: `others(i, kv)` is the store after the
      `i`-th such pause if it was `kv` before. They never overwrite or delete. */
  ghost predicate Monotone(others: (nat, Kv) -> Kv) {
    forall i: nat, kv: Kv :: Extends(kv, others(i, kv))
  }

  /** They keep the markers truthful, as every step above does, whatever they upload meanwhile. */
  ghost predicate Honest(others: (nat, Kv) -> Kv, hash: Bytes -> string) {
    Monotone(others) && forall i: nat, kv: Kv :: Sealed(kv, hash) ==> Sealed(others(i, kv), hash)
  }

  /** All keys of a contract. */
  function Whole(d: string, a: Bytes): Kv {
    (map i | 0 <= i < ChunkCount(a) :: Chunk(d, i) := ChunkAt(a, i))[Complete(d) := Itoa(|a|)]
  }

  /** A rival that uploads the whole of `a` at once, unless other bytes are in its way. */
  function Rival(kv: Kv, d: string, a: Bytes): Kv {
    if forall k :: k in Whole(d, a) && k in kv ==> kv[k] == Whole(d, a)[k] then kv + Whole(d, a) else kv
  }

  /** Another replica may finish any upload during a call, that of the same contract included. */
  lemma RivalsMayFinish(a: Bytes, hash: Bytes -> string)
    requires Uploadable(a)
    ensures var others := (i: nat, kv: Kv) => Rival(kv, hash(a), a);
      Honest(others, hash) && forall i: nat :: Stored(others(i, map[]), hash(a), a)
  {
    forall kv: Kv | Sealed(kv, hash) ensures Sealed(Rival(kv, hash(a), a), hash) {
      RivalIsHonest(kv, a, hash);
    }
    WholeIsStored(map[], hash(a), a);
  }

  lemma WholeIsStored(kv: Kv, d: string, a: Bytes)
    requires Uploadable(a)
    ensures Stored(kv + Whole(d, a), d, a)
  {
    AtoiOfItoa(|a|);
  }

  lemma RivalIsHonest(kv: Kv, a: Bytes, hash: Bytes -> string)
    requires Uploadable(a) && Sealed(kv, hash)
    ensures Sealed(Rival(kv, hash(a), a), hash)
  {
    var kv' := Rival(kv, hash(a), a);
    assert Extends(kv, kv');
    forall d | Complete(d) in kv' ensures exists b :: Stored(kv', d, b) && hash(b) == d {
      if Complete(d) in kv {
        var b :| Stored(kv, d, b) && hash(b) == d;
        StoredForever(kv, kv', d, b);
      } else {
        WholeIsStored(kv, hash(a), a);
        assert d == hash(a) && Stored(kv', d, a);
      }
    }
  }

  lemma ReadOne(kv: Kv, kv': Kv, d: string, size: nat, data: Bytes, i: nat)
    requires ReadTo(kv, d, size, data, i) && Extends(kv, kv') && |data| < size
    requires Chunk(d, i) in kv' && |kv'[Chunk(d, i)]| == Min(CHUNK, size - |data|)
    ensures ReadTo(kv', d, size, data + kv'[Chunk(d, i)], i + 1)
  {
    var more := data + kv'[Chunk(d, i)];
    forall k | 0 <= k < i ensures kv'[Chunk(d, k)] == more[k * CHUNK..Min((k + 1) * CHUNK, size)] {
      assert (k + 1) * CHUNK <= i * CHUNK == |data|;
      assert more[k * CHUNK..(k + 1) * CHUNK] == data[k * CHUNK..(k + 1) * CHUNK];
    }
    assert more[|data|..] == kv'[Chunk(d, i)];
  }

  lemma ReadAll(kv: Kv, d: string, size: nat, data: Bytes, i: nat)
    requires ReadTo(kv, d, size, data, i) && |data| == size && 0 < size
    ensures ChunkCount(data) <= i && HasChunks(kv, d, data, ChunkCount(data))
  {
  }

  /** Every archive stored at the outset has this size and this beginning. */
  ghost predicate Agrees(kv: Kv, d: string, size: nat, data: Bytes) {
    forall a | Stored(kv, d, a) :: |a| == size && |data| <= size && data == a[..|data|]
  }

  lemma AgreesAll(kv: Kv, d: string, size: nat, data: Bytes)
    requires Agrees(kv, d, size, data) && |data| == size
    ensures forall a | Stored(kv, d, a) :: a == data
  {
    forall a | Stored(kv, d, a) ensures a == data { assert a[..|a|] == a; }
  }

  lemma StoredHasChunk(kv: Kv, kv': Kv, d: string, size: nat, data: Bytes, i: nat)
    requires Agrees(kv, d, size, data) && Extends(kv, kv') && |data| == Min(i * CHUNK, size) < size
    ensures (exists a :: Stored(kv, d, a)) ==> Chunk(d, i) in kv'
  {
    if a :| Stored(kv, d, a) { assert i < ChunkCount(a); }
  }

  lemma AgreesOne(kv: Kv, kv': Kv, d: string, size: nat, data: Bytes, i: nat)
    requires Agrees(kv, d, size, data) && Extends(kv, kv')
    requires |data| == Min(i * CHUNK, size) < size && Chunk(d, i) in kv'
    ensures Agrees(kv, d, size, data + kv'[Chunk(d, i)])
    ensures (exists a :: Stored(kv, d, a)) ==> |kv'[Chunk(d, i)]| == Min(CHUNK, size - |data|)
  {
    forall a | Stored(kv, d, a) ensures kv'[Chunk(d, i)] == ChunkAt(a, i) && i < ChunkCount(a) { }
    forall a | Stored(kv, d, a)
      ensures |data + kv'[Chunk(d, i)]| <= size && data + kv'[Chunk(d, i)] == a[..|data + kv'[Chunk(d, i)]|]
      ensures |kv'[Chunk(d, i)]| == Min(CHUNK, size - |data|)
    {
      JoinChunks(a, i);
    }
  }

  class ConsulStore {
    var kv: Kv

    /** Write-once: nothing is overwritten, success means the key holds these bytes from now on, and an
        answered call succeeds exactly when no other bytes are there. An error may hide the write. */
    method PutImmutable(key: Key, data: Bytes, fate: Fate, others: Kv -> Kv) returns (ok: bool)
      requires forall before: Kv :: Extends(before, others(before))
      modifies this`kv
      ensures Extends(old(kv), kv)
      ensures ok ==> key in kv && kv[key] == data
      ensures fate.Answered? ==> (ok <==> key !in old(kv) || old(kv)[key] == data)
      ensures key in old(kv) && old(kv)[key] != data ==> !ok
      ensures var put := if key in old(kv) || fate == CasFailed(false) then old(kv) else old(kv)[key := data];
              kv == if fate.CasFailed? || key !in old(kv) then put else others(put)
      ensures fate.CasFailed? ==> !ok
      ensures !fate.CasFailed? && key !in old(kv) ==> ok
    {
      var won := key !in kv;
      if won && fate != CasFailed(false) { kv := kv[key := data]; }
      if fate.CasFailed? { return false; }
      if won { return true; }
      kv := others(kv);
      ok := !fate.ReadFailed? && kv[key] == data;
    }

    /** One `putImmutable` of a `PutContract` call, with other writers at work before and inside it. */
    method PutPart(key: Key, data: Bytes, fate: Fate, others: (nat, Kv) -> Kv, n: nat,
                   ghost w: Writer, ghost hash: Bytes -> string) returns (ok: bool)
      requires Sealed(kv, hash) && Honest(others, hash) && Genuine(w, hash) && Progress(kv, w) && !Finished(w)
      requires NextPut(w) == (key, data)
      modifies this`kv
      ensures Extends(old(kv), kv) && Sealed(kv, hash)
      ensures ok ==> Progress(kv, w.(confirmed := w.confirmed + 1))
      ensures key in old(kv) && old(kv)[key] == data && fate.Answered? ==> ok
    {
      kv := others(2 * n, kv);
      ghost var before := kv;
      ok := PutImmutable(key, data, fate, now => others(2 * n + 1, now));
      PutUnderInterference(before, w, kv, hash, fate, others, 2 * n + 1);
    }

    /** Other replicas work before and inside each operation of the call. */
    method PutContract(digest: string, archive: Bytes, hash: Bytes -> string, fates: nat -> Fate, others: (nat, Kv) -> Kv)
      returns (ok: bool)
      requires Sealed(kv, hash) && Honest(others, hash)
      modifies this`kv
      ensures Extends(old(kv), kv) && Sealed(kv, hash)
      ensures ok ==> IsRevision(digest) && hash(archive) == digest && Stored(kv, digest, archive)
      ensures !IsRevision(digest) || !Uploadable(archive) || hash(archive) != digest ==> !ok && kv == old(kv)
      ensures ok ==>
        |digest| == 64 && (forall c :: c in digest ==> c in "0123456789abcdef") && 0 < |archive| <= 33554432
      ensures (&& IsRevision(digest) && hash(archive) == digest && Stored(old(kv), digest, archive)
               && old(kv)[Complete(digest)] == Itoa(|archive|) && (forall i :: fates(i).Answered?)) ==> ok
    {
      RevisionExact(digest);
      if !IsRevision(digest) { return false; }
      if |archive| == 0 || |archive| > MAX_ARCHIVE || hash(archive) != digest { return false; }
      ghost var w := Writer(digest, archive, 0);
      var i, offset := 0, 0;
      while offset < |archive|
        invariant i <= ChunkCount(archive) && offset == i * CHUNK && w == Writer(digest, archive, i)
        invariant offset < |archive| <==> i < ChunkCount(archive)
        invariant Extends(old(kv), kv) && Sealed(kv, hash) && Progress(kv, w)
        decreases ChunkCount(archive) - i
      {
        JoinChunks(archive, i);
        var end := Min(offset + CHUNK, |archive|);
        var stored := PutPart(Chunk(digest, i), archive[offset..end], fates(i), others, i, w, hash);
        if !stored { return false; }
        i, offset, w := i + 1, offset + CHUNK, w.(confirmed := w.confirmed + 1);
      }
      ok := PutPart(Complete(digest), Itoa(|archive|), fates(i), others, i, w, hash);
    }

    /** `fails(i)` makes the `i`-th read fail; other replicas work before each chunk is read. */
    method GetContract(digest: string, lib: Library, fails: nat -> bool, others: (nat, Kv) -> Kv)
      returns (r: Result<Bytes>)
      requires Monotone(others)
      modifies this`kv
      ensures Extends(old(kv), kv) && (Sealed(old(kv), lib.hash) && Honest(others, lib.hash) ==> Sealed(kv, lib.hash))
      ensures r.Ok? ==> Complete(digest) in old(kv) && Kept(kv, digest, r.value, lib)
      ensures r.Ok? ==> lib.hash(r.value) == digest && lib.unpackable(r.value) && 0 < |r.value| <= 33554432
      ensures r.Ok? ==> |digest| == 64 && forall c :: c in digest ==> c in "0123456789abcdef"
      ensures forall a | Stored(old(kv), digest, a) && IsRevision(digest) && (forall i :: !fails(i)) ::
                r == if lib.hash(a) == digest && lib.unpackable(a) then Ok(a) else Err
    {
      RevisionExact(digest);
      if !IsRevision(digest) { return Err; }
      if fails(0) || Complete(digest) !in kv { return Err; }
      var parsed := Atoi(kv[Complete(digest)]);
      if parsed.None? || parsed.value <= 0 || parsed.value > MAX_ARCHIVE { return Err; }
      var size, data, i := parsed.value, [], 0;
      while |data| < size
        invariant |data| <= size && Extends(old(kv), kv)
        invariant Sealed(old(kv), lib.hash) && Honest(others, lib.hash) ==> Sealed(kv, lib.hash)
        invariant ReadTo(kv, digest, size, data, i)
        invariant Agrees(old(kv), digest, size, data)
        decreases size - |data|
      {
        ghost var before := kv;
        kv := others(i, kv);
        if fails(i + 1) { return Err; }
        StoredHasChunk(old(kv), kv, digest, size, data, i);
        if Chunk(digest, i) !in kv { return Err; }
        var part := kv[Chunk(digest, i)];
        AgreesOne(old(kv), kv, digest, size, data, i);
        if |part| != Min(CHUNK, size - |data|) { return Err; }
        ReadOne(before, kv, digest, size, data, i);
        data, i := data + part, i + 1;
      }
      AgreesAll(old(kv), digest, size, data);
      if lib.hash(data) != digest || !lib.unpackable(data) { return Err; }
      ReadAll(kv, digest, size, data, i);
      r := Ok(data);
    }
  }

  /** One put, as `PutImmutable` describes it, is one move of the call in the protocol: its CAS wins, with or
      without an answer, or finds the same bytes, or the call stops; success brings the call one part further. */
  lemma PutIsMove(s: System, id: nat, fate: Fate, lib: Library)
    requires id in s.writers && s.writers[id].confirmed <= ChunkCount(s.writers[id].archive)
    ensures var (w, (k, v)) := (s.writers[id], NextPut(s.writers[id]));
      var put := if k in s.kv || fate == CasFailed(false) then s.kv else s.kv[k := v];
      var ok := !fate.CasFailed? && (k !in s.kv || (!fate.ReadFailed? && s.kv[k] == v));
      exists m, s' ::
        && Step(s, m, s', lib) && s'.kv == put
        && (ok ==> s' == s.(kv := put, writers := s.writers[id := w.(confirmed := w.confirmed + 1)]))
  {
    hide Itoa, ChunkAt, SizeAt;
    var w := s.writers[id];
    var (k, v) := NextPut(w);
    var on := s.writers[id := w.(confirmed := w.confirmed + 1)];
    if k !in s.kv && !fate.CasFailed? {
      assert Step(s, Win(id, true), s.(kv := s.kv[k := v], writers := on), lib);
    } else if k !in s.kv && fate.applied {
      assert Step(s, Win(id, false), s.(kv := s.kv[k := v], writers := s.writers - {id}), lib);
    } else if k in s.kv && fate.Answered? && s.kv[k] == v {
      assert Step(s, Agree(id), s.(writers := on), lib);
    } else {
      assert Step(s, Stop(id), s.(writers := s.writers - {id}), lib);
    }
  }

  /** Whatever becomes of one put, the markers stay truthful; if it succeeds the call has progressed. */
  lemma PutUnderInterference(kv: Kv, w: Writer, kv': Kv, hash: Bytes -> string, fate: Fate, others: (nat, Kv) -> Kv, n: nat)
    requires Sealed(kv, hash) && Honest(others, hash) && Genuine(w, hash) && Progress(kv, w) && !Finished(w)
    requires var (k, v) := NextPut(w);
             var put := if k in kv || fate == CasFailed(false) then kv else kv[k := v];
             kv' == if fate.CasFailed? || k !in kv then put else others(n, put)
    ensures Extends(kv, kv') && Sealed(kv', hash)
    ensures !fate.CasFailed? && (NextPut(w).0 !in kv || kv[NextPut(w).0] == NextPut(w).1) ==>
      Progress(kv', w.(confirmed := w.confirmed + 1))
  {
    var (k, v) := NextPut(w);
    if k !in kv {
      if fate != CasFailed(false) { PutKeeps(kv, w, kv', hash); }
    } else if kv[k] == v {
      PutKeeps(kv, w, kv, hash);
    }
  }
}
