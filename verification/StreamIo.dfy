/**
 In-memory readers and writers of src/stream.rs: bounded reads, the tee, chunked
 reading and copying, and seeking. Readers and writers are kept by handle, so a
 copy can be asked to write to the very writer its reader is teed to.
 */
module StreamIo {
  import opened Arithmetic
  import opened Wrappers

  const MAX_STREAM_BYTES := 16 * 1024 * 1024
  const CHUNK := 8192

  function Min(a: nat, b: nat): nat { if a <= b then a else b }

  datatype Reader = Reader(data: seq<byte>, position: nat, remaining: Option<nat>, tee: Option<nat>)
  datatype Writer = Writer(data: seq<byte>, position: nat)
  datatype State = State(readers: map<nat, Reader>, writers: map<nat, Writer>)

  predicate Fits(w: Writer) { w.position <= |w.data| <= MAX_STREAM_BYTES }

  /** Reader `h` has its cursor within its data, and so has the writer it is teed to. */
  predicate Ready(s: State, h: nat) {
    && h in s.readers
    && s.readers[h].position <= |s.readers[h].data|
    && (s.readers[h].tee.Some? ==> s.readers[h].tee.value in s.writers && Fits(s.writers[s.readers[h].tee.value]))
  }

  // ----- writing at a cursor -----

  /** The contents before `at`, filled up with zeros. */
  function Before(data: seq<byte>, at: nat): (r: seq<byte>)
    ensures |r| == at
  {
    if |data| < at then data + seq(at - |data|, _ => 0) else data[..at]
  }

  function From(data: seq<byte>, at: nat): (r: seq<byte>)
    ensures |r| == if |data| < at then 0 else |data| - at
  {
    if |data| < at then [] else data[at..]
  }

  /** The contents after `bytes` are written at `at`: zeros fill a gap, later bytes stay. */
  function Overlay(data: seq<byte>, at: nat, bytes: seq<byte>): (r: seq<byte>)
    ensures |r| == if |data| < at + |bytes| then at + |bytes| else |data|
  {
    Before(data, at) + bytes + From(data, at + |bytes|)
  }

  /** The bytes written are there and every other byte is as before. */
  lemma OverlayAt(data: seq<byte>, at: nat, bytes: seq<byte>, i: nat)
    requires i < |Overlay(data, at, bytes)|
    ensures Overlay(data, at, bytes)[i] ==
            if at <= i < at + |bytes| then bytes[i - at] else if i < |data| then data[i] else 0
  {
  }

  lemma PiecesAt(data: seq<byte>, at: nat, a: seq<byte>, b: seq<byte>, i: nat)
    requires i < |Overlay(data, at, a + b)|
    ensures Overlay(Overlay(data, at, a), at + |a|, b)[i] == Overlay(data, at, a + b)[i]
  {
    var once := Overlay(data, at, a);
    OverlayAt(once, at + |a|, b, i);
    OverlayAt(data, at, a + b, i);
    if i < |once| {
      OverlayAt(data, at, a, i);
    }
  }

  /** Writing in two pieces is writing once: no chunking shows in the contents. */
  lemma OverlayInPieces(data: seq<byte>, at: nat, a: seq<byte>, b: seq<byte>)
    ensures Overlay(Overlay(data, at, a), at + |a|, b) == Overlay(data, at, a + b)
  {
    forall i: nat | i < |Overlay(data, at, a + b)|
      ensures Overlay(Overlay(data, at, a), at + |a|, b)[i] == Overlay(data, at, a + b)[i]
    {
      PiecesAt(data, at, a, b, i);
    }
  }

  /** How many more bytes fit at the cursor. */
  function Room(w: Writer): int { MAX_STREAM_BYTES - w.position }

  function Put(w: Writer, bytes: seq<byte>): Writer {
    Writer(Overlay(w.data, w.position, bytes), w.position + |bytes|)
  }

  lemma PutTwice(w: Writer, a: seq<byte>, b: seq<byte>)
    ensures Put(Put(w, a), b) == Put(w, a + b)
  {
    OverlayInPieces(w.data, w.position, a, b);
    assert Put(Put(w, a), b).data == Overlay(Overlay(w.data, w.position, a), w.position + |a|, b);
  }

  lemma PutNothing(w: Writer)
    requires Fits(w)
    ensures Put(w, []) == w
  {
  }

  // ----- moving a reader -----

  /** How many bytes the reader may still return: what is left of the data and of the limit. */
  function Left(r: Reader): nat {
    var left := if r.position <= |r.data| then |r.data| - r.position else 0;
    if r.remaining.Some? then Min(r.remaining.value, left) else left
  }

  function Ahead(r: Reader, n: nat): seq<byte>
    requires r.position + n <= |r.data|
  {
    r.data[r.position..r.position + n]
  }

  function Advance(r: Reader, n: nat): Reader {
    r.(position := r.position + n,
       remaining := if r.remaining.None? then None
                    else Some(if r.remaining.value < n then 0 else r.remaining.value - n))
  }

  lemma AdvanceTwice(r: Reader, a: nat, b: nat)
    requires r.position <= |r.data| && a + b <= Left(r)
    ensures Left(Advance(r, a)) == Left(r) - a
    ensures Advance(Advance(r, a), b) == Advance(r, a + b)
    ensures Ahead(r, a) + Ahead(Advance(r, a), b) == Ahead(r, a + b)
  {
  }

  /** Whether the tee of `h`, if there is one, has room for `n` bytes. */
  predicate TeeTakes(s: State, h: nat, n: nat)
    requires Ready(s, h)
  {
    s.readers[h].tee.Some? ==> n <= Room(s.writers[s.readers[h].tee.value])
  }

  /** The writers after the tee of `h` received the next `n` bytes. */
  function Teed(s: State, h: nat, n: nat): map<nat, Writer>
    requires Ready(s, h) && n <= Left(s.readers[h])
  {
    var r := s.readers[h];
    if r.tee.None? then s.writers else s.writers[r.tee.value := Put(s.writers[r.tee.value], Ahead(r, n))]
  }

  /** The reader moved over `moved` bytes, of which its tee received the first `kept`. */
  function Moved(s: State, h: nat, kept: nat, moved: nat): State
    requires Ready(s, h) && kept <= moved <= Left(s.readers[h])
  {
    State(s.readers[h := Advance(s.readers[h], moved)], Teed(s, h, kept))
  }

  lemma MovedNothing(s: State, h: nat)
    requires Ready(s, h)
    ensures Moved(s, h, 0, 0) == s
  {
    var r := s.readers[h];
    assert Advance(r, 0) == r && s.readers[h := r] == s.readers;
    if r.tee.Some? {
      PutNothing(s.writers[r.tee.value]);
      assert s.writers[r.tee.value := s.writers[r.tee.value]] == s.writers;
    }
  }

  lemma MovedReady(s: State, h: nat, n: nat)
    requires Ready(s, h) && n <= Left(s.readers[h]) && TeeTakes(s, h, n)
    ensures Ready(Moved(s, h, n, n), h)
    ensures forall m :: TeeTakes(Moved(s, h, n, n), h, m) == TeeTakes(s, h, n + m)
  {
  }

  lemma MovedTwice(s: State, h: nat, a: nat, kept: nat, moved: nat)
    requires Ready(s, h) && kept <= moved && a + moved <= Left(s.readers[h])
    requires Ready(Moved(s, h, a, a), h)
    ensures Left(Moved(s, h, a, a).readers[h]) == Left(s.readers[h]) - a
    ensures Moved(Moved(s, h, a, a), h, kept, moved) == Moved(s, h, a + kept, a + moved)
  {
    var r := s.readers[h];
    AdvanceTwice(r, a, kept);
    AdvanceTwice(r, a, moved);
    assert s.readers[h := Advance(r, a)][h := Advance(r, a + moved)] == s.readers[h := Advance(r, a + moved)];
    if r.tee.Some? {
      PutTwice(s.writers[r.tee.value], Ahead(r, a), Ahead(Advance(r, a), kept));
    }
  }

  // ----- reading in chunks -----

  /** `s` is what `s0` becomes when reader `h` has returned `got` bytes. */
  predicate ReadSoFar(s0: State, s: State, h: nat, got: nat) {
    Ready(s0, h) && got <= Left(s0.readers[h]) && TeeTakes(s0, h, got) && s == Moved(s0, h, got, got)
  }

  /** However the reading so far was cut up, the next `n` bytes extend it as if all had been one read. */
  lemma NextRead(s0: State, s: State, h: nat, got: nat, n: nat)
    requires ReadSoFar(s0, s, h, got) && got + n <= Left(s0.readers[h])
    ensures Ready(s, h) && Left(s.readers[h]) == Left(s0.readers[h]) - got
    ensures TeeTakes(s, h, n) == TeeTakes(s0, h, got + n)
    ensures TeeTakes(s, h, n) ==> ReadSoFar(s0, Moved(s, h, n, n), h, got + n)
    ensures Moved(s, h, 0, n) == Moved(s0, h, got, got + n)
    ensures Ahead(s0.readers[h], got) + Ahead(s.readers[h], n) == Ahead(s0.readers[h], got + n)
  {
    MovedReady(s0, h, got);
    MovedTwice(s0, h, got, n, n);
    MovedTwice(s0, h, got, 0, n);
    AdvanceTwice(s0.readers[h], got, n);
  }

  /** The whole chunks that fit in `room`. */
  function WholeChunks(room: nat): (n: nat)
    ensures n <= room < n + CHUNK && n % CHUNK == 0
  {
    room / CHUNK * CHUNK
  }

  lemma WholeChunksOf(room: nat, n: nat)
    requires n % CHUNK == 0 && n <= room < n + CHUNK
    ensures WholeChunks(room) == n
  {
  }

  /**
   Reading to the end returns one slice: everything left, up to the limit, and
   the tee receives exactly that slice. When the tee has no room for all of it,
   the call fails, the tee keeps the whole chunks that fit, and the reader has
   moved past the chunk that did not.
   */
  predicate ReadOutcome(s0: State, h: nat, limit: nat, s: State, r: Result<seq<byte>>)
    requires Ready(s0, h)
  {
    var all := Min(limit, Left(s0.readers[h]));
    if TeeTakes(s0, h, all) then s == Moved(s0, h, all, all) && r == Ok(Ahead(s0.readers[h], all))
    else
      var kept := WholeChunks(Room(s0.writers[s0.readers[h].tee.value]));
      s == Moved(s0, h, kept, Min(all, kept + CHUNK)) && r == Err
  }

  /** The result of one read of at most `wanted` bytes. */
  predicate ChunkRead(s: State, h: nat, wanted: nat, s': State, r: Result<seq<byte>>)
    requires Ready(s, h)
  {
    var n := Min(wanted, Left(s.readers[h]));
    if TeeTakes(s, h, n) then s' == Moved(s, h, n, n) && r == Ok(Ahead(s.readers[h], n))
    else s' == Moved(s, h, 0, n) && r == Err
  }

  /** The reading from `s0` stands at `s` with `output` returned so far, in whole chunks but for the last. */
  predicate Reading(s0: State, s: State, h: nat, limit: nat, output: seq<byte>) {
    && ReadSoFar(s0, s, h, |output|)
    && |output| <= Min(limit, Left(s0.readers[h]))
    && output == Ahead(s0.readers[h], |output|)
    && (|output| % CHUNK == 0 || |output| == Min(limit, Left(s0.readers[h])))
  }

  lemma ReadingReady(s0: State, s: State, h: nat, limit: nat, output: seq<byte>)
    requires Reading(s0, s, h, limit, output)
    ensures Ready(s, h) && Left(s.readers[h]) == Left(s0.readers[h]) - |output|
  {
    NextRead(s0, s, h, |output|, 0);
  }

  lemma TeeIsFull(s0: State, s: State, h: nat, limit: nat, output: seq<byte>, n: nat)
    requires Reading(s0, s, h, limit, output) && Ready(s, h) && n == Min(Min(limit - |output|, CHUNK), Left(s.readers[h]))
    requires !TeeTakes(s, h, n)
    ensures ReadOutcome(s0, h, limit, Moved(s, h, 0, n), Err)
  {
    ReadingReady(s0, s, h, limit, output);
    NextRead(s0, s, h, |output|, n);
    WholeChunksOf(Room(s0.writers[s0.readers[h].tee.value]), |output|);
  }

  lemma ReadTurn(s0: State, s: State, h: nat, limit: nat, output: seq<byte>, s': State, r: Result<seq<byte>>)
    requires Reading(s0, s, h, limit, output) && Ready(s, h) && ChunkRead(s, h, Min(limit - |output|, CHUNK), s', r)
    ensures r.Err? ==> ReadOutcome(s0, h, limit, s', Err)
    ensures r == Ok([]) ==> ReadOutcome(s0, h, limit, s', Ok(output))
    ensures r.Ok? && r.value != [] ==> |output + r.value| <= limit && Reading(s0, s', h, limit, output + r.value)
  {
    var n := Min(Min(limit - |output|, CHUNK), Left(s.readers[h]));
    ReadingReady(s0, s, h, limit, output);
    NextRead(s0, s, h, |output|, n);
    if !TeeTakes(s, h, n) {
      TeeIsFull(s0, s, h, limit, output, n);
    }
  }

  lemma ReadFull(s0: State, s: State, h: nat, limit: nat, output: seq<byte>)
    requires Reading(s0, s, h, limit, output) && |output| == limit
    ensures ReadOutcome(s0, h, limit, s, Ok(output))
  {
  }

  // ----- copying in chunks -----

  predicate ReadyToCopy(s: State, h: nat, w: nat) { Ready(s, h) && w in s.writers && Fits(s.writers[w]) }

  /** How far the cursor of `w` moves when `n` bytes are copied to it: a tee receives them twice. */
  function Written(s: State, h: nat, w: nat, n: nat): nat
    requires h in s.readers
  {
    if s.readers[h].tee == Some(w) then 2 * n else n
  }

  /** Whether `n` bytes fit in the tee and in `w`, which may be the tee itself. */
  predicate CanCopy(s: State, h: nat, w: nat, n: nat)
    requires ReadyToCopy(s, h, w)
  {
    TeeTakes(s, h, n) && Written(s, h, w, n) <= Room(s.writers[w])
  }

  /** What a writer receives that is also the tee: every chunk twice. */
  function Doubled(bytes: seq<byte>): (r: seq<byte>)
    ensures |r| == 2 * |bytes|
  {
    if |bytes| <= CHUNK then bytes + bytes else bytes[..CHUNK] + bytes[..CHUNK] + Doubled(bytes[CHUNK..])
  }

  lemma DoubledFirst(first: seq<byte>, rest: seq<byte>)
    requires |first| == CHUNK
    ensures Doubled(first + rest) == first + first + Doubled(rest)
  {
    if rest == [] {
      assert first + rest == first && Doubled(rest) == [];
    } else {
      assert (first + rest)[..CHUNK] == first && (first + rest)[CHUNK..] == rest;
    }
  }

  /** After whole chunks, one more chunk is added twice. */
  lemma {:induction false} DoubledNext(a: seq<byte>, b: seq<byte>)
    requires |a| % CHUNK == 0 && |b| <= CHUNK
    ensures Doubled(a + b) == Doubled(a) + (b + b)
    decreases |a|
  {
    if a == [] {
      assert a + b == b && Doubled(a) == [];
    } else {
      var first, rest := a[..CHUNK], a[CHUNK..];
      DoubledNext(rest, b);
      DoubledFirst(first, rest);
      DoubledFirst(first, rest + b);
      assert a == first + rest && a + b == first + (rest + b);
    }
  }

  /** `s` is what `s0` becomes when `got` bytes of reader `h` were copied to `w`. */
  predicate CopiedSoFar(s0: State, s: State, h: nat, w: nat, got: nat) {
    && ReadyToCopy(s0, h, w) && ReadyToCopy(s, h, w)
    && got <= Left(s0.readers[h])
    && s.readers == s0.readers[h := Advance(s0.readers[h], got)]
    && s.writers == if s0.readers[h].tee == Some(w) then s0.writers[w := Put(s0.writers[w], Doubled(Ahead(s0.readers[h], got)))]
                    else Teed(s0, h, got)[w := Put(s0.writers[w], Ahead(s0.readers[h], got))]
  }

  lemma CopyStarts(s: State, h: nat, w: nat)
    requires ReadyToCopy(s, h, w)
    ensures CopiedSoFar(s, s, h, w, 0)
  {
    MovedNothing(s, h);
    PutNothing(s.writers[w]);
    assert Ahead(s.readers[h], 0) == [] && Doubled([]) == [];
    assert s.writers[w := s.writers[w]] == s.writers;
  }

  lemma NextCopyFits(s0: State, s: State, h: nat, w: nat, got: nat, n: nat)
    requires CopiedSoFar(s0, s, h, w, got) && got + n <= Left(s0.readers[h])
    ensures Left(s.readers[h]) == Left(s0.readers[h]) - got
    ensures CanCopy(s, h, w, n) == CanCopy(s0, h, w, got + n)
  {
    AdvanceTwice(s0.readers[h], got, n);
  }

  function PutAt(s: State, w: nat, bytes: seq<byte>): State
    requires w in s.writers
  {
    s.(writers := s.writers[w := Put(s.writers[w], bytes)])
  }

  lemma NextWriters(s0: State, s: State, h: nat, w: nat, got: nat, n: nat)
    requires CopiedSoFar(s0, s, h, w, got) && got + n <= Left(s0.readers[h]) && n <= Left(s.readers[h])
    requires s0.readers[h].tee != Some(w)
    ensures Teed(s, h, n)[w := Put(Teed(s, h, n)[w], Ahead(s.readers[h], n))]
         == Teed(s0, h, got + n)[w := Put(s0.writers[w], Ahead(s0.readers[h], got + n))]
  {
    var r, tee := s0.readers[h], s0.readers[h].tee;
    AdvanceTwice(r, got, n);
    PutTwice(s0.writers[w], Ahead(r, got), Ahead(Advance(r, got), n));
    if tee.Some? {
      PutTwice(s0.writers[tee.value], Ahead(r, got), Ahead(Advance(r, got), n));
    }
  }

  /** Copied to its own tee, a chunk arrives twice. */
  lemma NextTwice(s0: State, s: State, h: nat, w: nat, got: nat, n: nat)
    requires CopiedSoFar(s0, s, h, w, got) && got + n <= Left(s0.readers[h]) && n <= Left(s.readers[h])
    requires s0.readers[h].tee == Some(w) && got % CHUNK == 0 && n <= CHUNK
    ensures Teed(s, h, n)[w := Put(Teed(s, h, n)[w], Ahead(s.readers[h], n))]
         == s0.writers[w := Put(s0.writers[w], Doubled(Ahead(s0.readers[h], got + n)))]
  {
    var r := s0.readers[h];
    var a, b := Ahead(r, got), Ahead(Advance(r, got), n);
    AdvanceTwice(r, got, n);
    DoubledNext(a, b);
    PutTwice(s.writers[w], b, b);
    PutTwice(s0.writers[w], Doubled(a), b + b);
  }

  lemma NextCopy(s0: State, s: State, h: nat, w: nat, got: nat, n: nat)
    requires CopiedSoFar(s0, s, h, w, got) && got + n <= Left(s0.readers[h]) && n <= Left(s.readers[h]) && CanCopy(s, h, w, n)
    requires got % CHUNK == 0 && n <= CHUNK
    ensures CopiedSoFar(s0, PutAt(Moved(s, h, n, n), w, Ahead(s.readers[h], n)), h, w, got + n)
  {
    AdvanceTwice(s0.readers[h], got, n);
    MovedReady(s, h, n);
    if s0.readers[h].tee != Some(w) {
      NextWriters(s0, s, h, w, got, n);
    } else {
      NextTwice(s0, s, h, w, got, n);
    }
  }

  /** How many bytes can be copied before the tee or the writer is full. */
  function CopyRoom(s: State, h: nat, w: nat): (n: nat)
    requires ReadyToCopy(s, h, w)
    ensures forall k: nat :: CanCopy(s, h, w, k) <==> k <= n
  {
    var tee, room := s.readers[h].tee, Room(s.writers[w]);
    if tee == Some(w) then room / 2 else if tee.None? then room else Min(Room(s.writers[tee.value]), room)
  }

  /** The chunk after the first `got` bytes, if it still fits once after those were written twice. */
  function Once(s: State, h: nat, w: nat, got: nat, n: nat): seq<byte>
    requires h in s.readers && w in s.writers && s.readers[h].position + got + n <= |s.readers[h].data|
  {
    if 2 * got + n <= Room(s.writers[w]) then Ahead(Advance(s.readers[h], got), n) else []
  }

  /**
   Where a copy stops that does not fit: after the whole chunks that do. The
   reader has moved past one chunk more; the tee has it if it had the room; the
   writer does not have it, unless it is that tee, and then has it once. No
   other writer changed.
   */
  predicate CopyStuck(s0: State, h: nat, w: nat, all: nat, s: State)
    requires ReadyToCopy(s0, h, w) && CopyRoom(s0, h, w) < all <= Left(s0.readers[h])
  {
    var r, got := s0.readers[h], WholeChunks(CopyRoom(s0, h, w));
    var n := Min(all - got, CHUNK);
    var kept := if TeeTakes(s0, h, got + n) then got + n else got;
    && s.readers == s0.readers[h := Advance(r, got + n)]
    && s.writers == if r.tee == Some(w) then s0.writers[w := Put(s0.writers[w], Doubled(Ahead(r, got)) + Once(s0, h, w, got, n))]
                    else Teed(s0, h, kept)[w := Put(s0.writers[w], Ahead(r, got))]
  }

  /**
   A copy succeeds exactly when everything left, up to the limit, fits. Then the
   reader advanced over the number of bytes reported, a writer other than the
   tee received exactly those bytes at its cursor, and one that is the tee
   received each chunk of them twice.
   */
  predicate CopyOutcome(s0: State, h: nat, w: nat, limit: nat, s: State, r: Result<nat>)
    requires ReadyToCopy(s0, h, w)
  {
    var all := Min(limit, Left(s0.readers[h]));
    if CanCopy(s0, h, w, all) then r == Ok(all) && CopiedSoFar(s0, s, h, w, all)
    else r == Err && CopyStuck(s0, h, w, all, s)
  }

  /** The result of copying one chunk of at most `wanted` bytes. */
  predicate ChunkCopied(s: State, h: nat, w: nat, wanted: nat, s': State, r: Result<nat>)
    requires ReadyToCopy(s, h, w)
  {
    var n := Min(wanted, Left(s.readers[h]));
    if !CanCopy(s, h, w, n) then r == Err && s' == Moved(s, h, if TeeTakes(s, h, n) then n else 0, n)
    else if n == 0 then r == Ok(0) && s' == s
    else r == Ok(n) && s' == PutAt(Moved(s, h, n, n), w, Ahead(s.readers[h], n))
  }

  /** The copy from `s0` stands at `s` after `total` bytes. */
  predicate Copying(s0: State, s: State, h: nat, w: nat, limit: nat, total: nat) {
    && CopiedSoFar(s0, s, h, w, total)
    && total <= Min(limit, Left(s0.readers[h])) && CanCopy(s0, h, w, total)
    && (total % CHUNK == 0 || total == Min(limit, Left(s0.readers[h])))
  }

  lemma CopyingStarts(s: State, h: nat, w: nat, limit: nat)
    requires ReadyToCopy(s, h, w)
    ensures Copying(s, s, h, w, limit, 0)
  {
    CopyStarts(s, h, w);
  }

  lemma NextFits(s0: State, s: State, h: nat, w: nat, limit: nat, total: nat, n: nat)
    requires Copying(s0, s, h, w, limit, total) && n == Min(Min(limit - total, CHUNK), Left(s.readers[h]))
    ensures total + n <= Min(limit, Left(s0.readers[h])) && CanCopy(s, h, w, n) == CanCopy(s0, h, w, total + n)
    ensures n == 0 ==> total == Min(limit, Left(s0.readers[h]))
  {
    NextCopyFits(s0, s, h, w, total, 0);
    NextCopyFits(s0, s, h, w, total, n);
  }

  /** A chunk that was read but not written on reached the tee at most. */
  lemma StuckWriters(s0: State, s: State, h: nat, w: nat, got: nat, kept: nat)
    requires CopiedSoFar(s0, s, h, w, got) && got + kept <= Left(s0.readers[h]) && kept <= Left(s.readers[h])
    requires s0.readers[h].tee != Some(w)
    ensures Teed(s, h, kept) == Teed(s0, h, got + kept)[w := Put(s0.writers[w], Ahead(s0.readers[h], got))]
  {
    var r, tee := s0.readers[h], s0.readers[h].tee;
    AdvanceTwice(r, got, kept);
    if tee.Some? {
      PutTwice(s0.writers[tee.value], Ahead(r, got), Ahead(Advance(r, got), kept));
    }
  }

  lemma TeeTakesNext(s0: State, s: State, h: nat, w: nat, got: nat, n: nat)
    requires CopiedSoFar(s0, s, h, w, got)
    ensures s0.readers[h].tee != Some(w) ==> TeeTakes(s, h, n) == TeeTakes(s0, h, got + n)
    ensures s0.readers[h].tee == Some(w) ==> TeeTakes(s, h, n) == (2 * got + n <= Room(s0.writers[w]))
  {
  }

  lemma StuckReaders(s0: State, s: State, h: nat, w: nat, got: nat, n: nat, kept: nat)
    requires CopiedSoFar(s0, s, h, w, got) && got + n <= Left(s0.readers[h]) && kept <= n <= Left(s.readers[h])
    ensures Moved(s, h, kept, n).readers == s0.readers[h := Advance(s0.readers[h], got + n)]
  {
    AdvanceTwice(s0.readers[h], got, n);
  }

  lemma StuckOther(s0: State, s: State, h: nat, w: nat, all: nat, got: nat, n: nat, kept: nat)
    requires CopiedSoFar(s0, s, h, w, got) && CopyRoom(s0, h, w) < all <= Left(s0.readers[h]) && s0.readers[h].tee != Some(w)
    requires got == WholeChunks(CopyRoom(s0, h, w)) && n == Min(all - got, CHUNK) <= Left(s.readers[h])
    requires kept == if TeeTakes(s, h, n) then n else 0
    ensures CopyStuck(s0, h, w, all, Moved(s, h, kept, n))
  {
    TeeTakesNext(s0, s, h, w, got, n);
    StuckReaders(s0, s, h, w, got, n, kept);
    StuckWriters(s0, s, h, w, got, kept);
  }

  lemma StuckSame(s0: State, s: State, h: nat, w: nat, all: nat, got: nat, n: nat, kept: nat)
    requires CopiedSoFar(s0, s, h, w, got) && CopyRoom(s0, h, w) < all <= Left(s0.readers[h]) && s0.readers[h].tee == Some(w)
    requires got == WholeChunks(CopyRoom(s0, h, w)) && n == Min(all - got, CHUNK) <= Left(s.readers[h])
    requires kept == if TeeTakes(s, h, n) then n else 0
    ensures CopyStuck(s0, h, w, all, Moved(s, h, kept, n))
  {
    TeeTakesNext(s0, s, h, w, got, n);
    StuckReaders(s0, s, h, w, got, n, kept);
    AdvanceTwice(s0.readers[h], got, n);
    var a, b := Doubled(Ahead(s0.readers[h], got)), Ahead(Advance(s0.readers[h], got), kept);
    PutTwice(s0.writers[w], a, b);
    assert Ahead(s.readers[h], kept) == Once(s0, h, w, got, n);
  }

  /** The chunk that does not fit is the first past the whole chunks that do. */
  lemma FailsThere(s0: State, s: State, h: nat, w: nat, limit: nat, total: nat, n: nat)
    requires Copying(s0, s, h, w, limit, total) && n == Min(Min(limit - total, CHUNK), Left(s.readers[h])) && !CanCopy(s, h, w, n)
    ensures var all := Min(limit, Left(s0.readers[h]));
            && CopyRoom(s0, h, w) < all && !CanCopy(s0, h, w, all)
            && total == WholeChunks(CopyRoom(s0, h, w)) && n == Min(all - total, CHUNK)
  {
    NextFits(s0, s, h, w, limit, total, n);
    NextCopyFits(s0, s, h, w, total, 0);
    WholeChunksOf(CopyRoom(s0, h, w), total);
  }

  lemma CopyFails(s0: State, s: State, h: nat, w: nat, limit: nat, total: nat, s': State)
    requires Copying(s0, s, h, w, limit, total) && ChunkCopied(s, h, w, Min(limit - total, CHUNK), s', Err)
    ensures CopyOutcome(s0, h, w, limit, s', Err)
  {
    var n, all := Min(Min(limit - total, CHUNK), Left(s.readers[h])), Min(limit, Left(s0.readers[h]));
    var kept := if TeeTakes(s, h, n) then n else 0;
    FailsThere(s0, s, h, w, limit, total, n);
    if s0.readers[h].tee != Some(w) {
      StuckOther(s0, s, h, w, all, total, n, kept);
    } else {
      StuckSame(s0, s, h, w, all, total, n, kept);
    }
  }

  lemma CopyEnds(s0: State, s: State, h: nat, w: nat, limit: nat, total: nat, s': State)
    requires Copying(s0, s, h, w, limit, total) && ChunkCopied(s, h, w, Min(limit - total, CHUNK), s', Ok(0))
    ensures CopyOutcome(s0, h, w, limit, s', Ok(total))
  {
    NextFits(s0, s, h, w, limit, total, Min(Min(limit - total, CHUNK), Left(s.readers[h])));
  }

  lemma CopyGoesOn(s0: State, s: State, h: nat, w: nat, limit: nat, total: nat, s': State, n: nat)
    requires Copying(s0, s, h, w, limit, total) && ChunkCopied(s, h, w, Min(limit - total, CHUNK), s', Ok(n)) && n > 0
    ensures Copying(s0, s', h, w, limit, total + n) && total + n <= limit
  {
    NextFits(s0, s, h, w, limit, total, n);
    NextCopy(s0, s, h, w, total, n);
  }

  lemma CopyFull(s0: State, s: State, h: nat, w: nat, limit: nat)
    requires Copying(s0, s, h, w, limit, limit)
    ensures CopyOutcome(s0, h, w, limit, s, Ok(limit))
  {
  }

  // ----- the streams -----

  /** Every cursor is within its data and every tee is on a writer. */
  ghost predicate Sound(s: State) {
    && (forall h {:trigger Ready(s, h)} :: h in s.readers ==> Ready(s, h))
    && (forall w {:trigger s.writers[w]} :: w in s.writers ==> Fits(s.writers[w]))
  }

  lemma ChangeKeeps(s: State, s': State, h: nat)
    requires Sound(s) && h in s.readers && h in s'.readers && s'.readers == s.readers[h := s'.readers[h]]
    requires s'.readers[h].position <= |s'.readers[h].data| && s'.readers[h].tee == s.readers[h].tee
    requires s'.writers.Keys == s.writers.Keys && forall w :: w in s'.writers ==> Fits(s'.writers[w])
    ensures Sound(s')
  {
    forall k | k in s'.readers ensures Ready(s', k) {
      assert Ready(s, k);
    }
  }

  lemma MovedKeeps(s: State, h: nat, kept: nat, moved: nat)
    requires Sound(s) && Ready(s, h) && kept <= moved <= Left(s.readers[h]) && TeeTakes(s, h, kept)
    ensures Sound(Moved(s, h, kept, moved))
  {
    ChangeKeeps(s, Moved(s, h, kept, moved), h);
  }

  lemma PutKeeps(s: State, w: nat, bytes: seq<byte>)
    requires Sound(s) && w in s.writers && |bytes| <= Room(s.writers[w])
    ensures Sound(PutAt(s, w, bytes))
  {
    forall k | k in s.readers ensures Ready(PutAt(s, w, bytes), k) {
      assert Ready(s, k);
    }
  }

  /**
   The streams by handle, with the operations of the runtime. A writer that was
   closed is no longer open to calls, but a reader teed to it still writes to it.
   */
  class Streams {
    var readers: map<nat, Reader>
    var writers: map<nat, Writer>
    var open: set<nat>  // the writers that are registered

    ghost function Now(): State
      reads this
    {
      State(readers, writers)
    }

    ghost predicate Valid()
      reads this
    {
      Sound(Now()) && open <= writers.Keys
    }

    constructor ()
      ensures Now() == State(map[], map[]) && open == {} && Valid()
    {
      readers, writers, open := map[], map[], {};
    }

    method Open(h: nat, data: seq<byte>)
      requires Valid() && h !in readers
      modifies `readers
      ensures Valid() && readers == old(readers)[h := Reader(data, 0, None, None)]
    {
      ghost var before := Now();
      readers := readers[h := Reader(data, 0, None, None)];
      forall k | k in readers ensures Ready(Now(), k) {
        assert k != h ==> Ready(before, k);
      }
    }

    method Create(w: nat)
      requires Valid() && w !in writers
      modifies `writers, `open
      ensures Valid() && writers == old(writers)[w := Writer([], 0)] && open == old(open) + {w}
    {
      ghost var before := Now();
      writers, open := writers[w := Writer([], 0)], open + {w};
      forall k | k in readers ensures Ready(Now(), k) {
        assert Ready(before, k);
      }
    }

    /** Closing a writer ends the calls to it, and leaves its contents and every tee on it as they are. */
    method CloseWriter(w: nat)
      requires Valid()
      modifies `open
      ensures Valid() && open == old(open) - {w}
    {
      open := open - {w};
    }

    method Tee(h: nat, w: nat) returns (ok: bool)
      requires Valid()
      modifies `readers
      ensures Valid() && (ok <==> h in old(readers) && w in open)
      ensures readers == if ok then old(readers)[h := old(readers)[h].(tee := Some(w))] else old(readers)
    {
      if h !in readers || w !in open {
        return false;
      }
      ghost var before := Now();
      readers := readers[h := readers[h].(tee := Some(w))];
      forall k | k in readers ensures Ready(Now(), k) {
        assert Ready(before, k);
      }
      ok := true;
    }

    method Limit(h: nat, limit: int) returns (ok: bool)
      requires Valid()
      modifies `readers
      ensures Valid() && (ok <==> 0 <= limit <= MAX_STREAM_BYTES && h in old(readers))
      ensures readers == if ok then old(readers)[h := old(readers)[h].(remaining := Some(limit))] else old(readers)
    {
      if !(0 <= limit <= MAX_STREAM_BYTES) || h !in readers {
        return false;
      }
      ghost var before := Now();
      assert Ready(before, h);
      readers := readers[h := readers[h].(remaining := Some(limit))];
      ChangeKeeps(before, Now(), h);
      ok := true;
    }

    /** Writing to a writer by the reference a tee holds, registered or not. */
    method WriteSlot(w: nat, bytes: seq<byte>) returns (ok: bool)
      requires Valid() && w in writers
      modifies `writers
      ensures Valid()
      ensures ok <==> |bytes| <= Room(old(writers)[w])
      ensures Now() == if ok then PutAt(old(Now()), w, bytes) else old(Now())
    {
      if |bytes| > MAX_STREAM_BYTES {
        return false;
      }
      var entry := writers[w];
      var end := entry.position + |bytes|;
      if end > MAX_STREAM_BYTES {
        return false;
      }
      PutKeeps(Now(), w, bytes);
      writers := writers[w := Writer(Overlay(entry.data, entry.position, bytes), end)];
      ok := true;
    }

    method Write(w: nat, bytes: seq<byte>) returns (ok: bool)
      requires Valid()
      modifies `writers
      ensures Valid()
      ensures ok <==> w in open && |bytes| <= Room(old(writers)[w])
      ensures Now() == if ok then PutAt(old(Now()), w, bytes) else old(Now())
    {
      if w !in open {
        return false;
      }
      ok := WriteSlot(w, bytes);
    }

    /** One bounded read. The reader moves on before the tee is written, so a tee that is full loses the bytes. */
    method Read(h: nat, requested: nat) returns (r: Result<seq<byte>>)
      requires Valid()
      modifies `readers, `writers
      ensures Valid()
      ensures if h in old(readers) then ChunkRead(old(Now()), h, Min(requested, MAX_STREAM_BYTES), Now(), r)
              else r.Err? && unchanged(this)
    {
      if h !in readers {
        return Err;
      }
      assert Ready(Now(), h);
      var entry := readers[h];
      var size := Min(requested, MAX_STREAM_BYTES);
      if entry.remaining.Some? {
        size := Min(entry.remaining.value, size);
      }
      MovedNothing(Now(), h);
      if size == 0 {
        assert Ahead(entry, 0) == [];
        return Ok([]);
      }
      var end := Min(entry.position + size, |entry.data|);
      var bytes := entry.data[entry.position..end];
      MovedKeeps(Now(), h, 0, |bytes|);
      readers := readers[h := Advance(entry, |bytes|)];
      if entry.tee.Some? && bytes != [] {
        var ok := WriteSlot(entry.tee.value, bytes);
        if !ok {
          return Err;
        }
      }
      r := Ok(bytes);
    }

    method ReadToEnd(h: nat, limit: int) returns (r: Result<seq<byte>>)
      requires Valid()
      modifies `readers, `writers
      ensures Valid()
      ensures if 0 <= limit <= MAX_STREAM_BYTES && h in old(readers) then ReadOutcome(old(Now()), h, limit, Now(), r)
              else r.Err? && unchanged(this)
    {
      if !(0 <= limit <= MAX_STREAM_BYTES) || h !in readers {
        return Err;
      }
      ghost var s0 := Now();
      assert Ready(s0, h);
      MovedNothing(s0, h);
      var output: seq<byte> := [];
      while |output| < limit
        invariant |output| <= limit && Valid() && Ready(Now(), h) && Reading(s0, Now(), h, limit, output)
        decreases limit - |output|
      {
        ghost var s := Now();
        var chunk := Read(h, Min(limit - |output|, CHUNK));
        ReadTurn(s0, s, h, limit, output, Now(), chunk);
        if chunk.Err? {
          return Err;
        }
        if chunk.value == [] {
          return Ok(output);
        }
        output := output + chunk.value;
        ReadingReady(s0, Now(), h, limit, output);
      }
      ReadFull(s0, Now(), h, limit, output);
      r := Ok(output);
    }

    /** One turn of the copy: read a chunk and write it on. */
    method CopyChunk(h: nat, w: nat, wanted: nat) returns (r: Result<nat>)
      requires Valid() && ReadyToCopy(Now(), h, w) && w in open && wanted <= MAX_STREAM_BYTES
      modifies `readers, `writers
      ensures Valid()
      ensures ChunkCopied(old(Now()), h, w, wanted, Now(), r)
    {
      MovedNothing(Now(), h);
      var chunk := Read(h, wanted);
      if chunk.Err? {
        return Err;
      }
      if chunk.value == [] {
        return Ok(0);
      }
      var ok := Write(w, chunk.value);
      if !ok {
        return Err;
      }
      r := Ok(|chunk.value|);
    }

    method CopyLoop(h: nat, w: nat, limit: nat) returns (r: Result<nat>)
      requires Valid() && ReadyToCopy(Now(), h, w) && w in open && limit <= MAX_STREAM_BYTES
      modifies `readers, `writers
      ensures Valid() && CopyOutcome(old(Now()), h, w, limit, Now(), r)
    {
      ghost var s0 := Now();
      CopyingStarts(s0, h, w, limit);
      var total := 0;
      while total < limit
        invariant total <= limit && Valid() && Copying(s0, Now(), h, w, limit, total)
        decreases limit - total
      {
        ghost var s := Now();
        var copied := CopyChunk(h, w, Min(limit - total, CHUNK));
        if copied.Err? {
          CopyFails(s0, s, h, w, limit, total, Now());
          return Err;
        }
        if copied.value == 0 {
          CopyEnds(s0, s, h, w, limit, total, Now());
          return Ok(total);
        }
        CopyGoesOn(s0, s, h, w, limit, total, Now(), copied.value);
        total := total + copied.value;
      }
      CopyFull(s0, Now(), h, w, limit);
      r := Ok(total);
    }

    method CopyTo(h: nat, w: nat, limit: int) returns (r: Result<nat>)
      requires Valid()
      modifies `readers, `writers
      ensures Valid()
      ensures if 0 <= limit <= MAX_STREAM_BYTES && h in old(readers) && w in open
              then ReadyToCopy(old(Now()), h, w) && CopyOutcome(old(Now()), h, w, limit, Now(), r)
              else r.Err? && unchanged(this)
    {
      if !(0 <= limit <= MAX_STREAM_BYTES) || h !in readers || w !in open {
        return Err;
      }
      assert Ready(Now(), h);
      r := CopyLoop(h, w, limit);
    }

    method SeekReader(h: nat, target: int) returns (ok: bool)
      requires Valid()
      modifies `readers
      ensures Valid()
      ensures ok <==> h in old(readers) && 0 <= target <= |old(readers)[h].data|
      ensures readers == if ok then old(readers)[h := old(readers)[h].(position := target)] else old(readers)
    {
      if h !in readers || target < 0 || target > |readers[h].data| {
        return false;
      }
      ghost var before := Now();
      assert Ready(before, h);
      readers := readers[h := readers[h].(position := target)];
      ChangeKeeps(before, Now(), h);
      ok := true;
    }

    method SeekWriter(w: nat, target: int) returns (ok: bool)
      requires Valid()
      modifies `writers
      ensures Valid()
      ensures ok <==> w in open && 0 <= target <= |old(writers)[w].data|
      ensures writers == if ok then old(writers)[w := old(writers)[w].(position := target)] else old(writers)
    {
      if !(0 <= target <= MAX_STREAM_BYTES) || w !in open || target > |writers[w].data| {
        return false;
      }
      ghost var before := Now();
      writers := writers[w := writers[w].(position := target)];
      forall k | k in readers ensures Ready(Now(), k) {
        assert Ready(before, k);
      }
      ok := true;
    }
  }
}
