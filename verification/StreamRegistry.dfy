/**
 The reader, writer and erased-stream registries of src/stream.rs, in sequential
 runs. The registries count references; the model also records who holds them:
 values that name a handle, retains made by other parts of the runtime, erased
 streams, and the tee lease a reader has on a writer.
 */
module StreamRegistry {
  import opened Wrappers

  datatype Reader = Reader(refs: nat, tee: Option<nat>)
  datatype Stream = Stream(reader: Option<nat>, writer: Option<nat>, names: nat)

  datatype State = State(
    readers: map<nat, Reader>,
    writers: map<nat, nat>,
    streams: map<nat, Stream>,
    next: nat,
    // the holders: live values by the handle they name, and outside retains
    readerNames: multiset<nat>,
    writerNames: multiset<nat>,
    streamNames: multiset<nat>,
    readerRetains: multiset<nat>,
    writerRetains: multiset<nat>,
    // handles that were closed explicitly
    closedReaders: set<nat>,
    closedWriters: set<nat>,
    closedStreams: set<nat>)

  // ----- the operations -----

  function ReleaseWriter(s: State, h: nat): State {
    if h !in s.writers then s
    else if s.writers[h] == 1 then s.(writers := s.writers - {h})
    else if s.writers[h] == 0 then s
    else s.(writers := s.writers[h := s.writers[h] - 1])
  }

  /** Releasing the last reference to a reader also releases the writer it is teed to. */
  function ReleaseReader(s: State, h: nat): State {
    if h !in s.readers then s
    else if s.readers[h].refs == 1 then RemoveReader(s, h)
    else if s.readers[h].refs == 0 then s
    else s.(readers := s.readers[h := s.readers[h].(refs := s.readers[h].refs - 1)])
  }

  function RemoveReader(s: State, h: nat): State
    requires h in s.readers
  {
    var s' := s.(readers := s.readers - {h});
    match s.readers[h].tee case None => s' case Some(w) => ReleaseWriter(s', w)
  }

  function AddReaderRef(s: State, h: nat): State
    requires h in s.readers
  {
    s.(readers := s.readers[h := s.readers[h].(refs := s.readers[h].refs + 1)])
  }

  function AddWriterRef(s: State, h: nat): State
    requires h in s.writers
  {
    s.(writers := s.writers[h := s.writers[h] + 1])
  }

  function RemoveStream(s: State, e: nat): State
    requires e in s.streams
  {
    var entry := s.streams[e];
    var s1 := s.(streams := s.streams - {e});
    var s2 := match entry.reader case None => s1 case Some(r) => ReleaseReader(s1, r);
    match entry.writer case None => s2 case Some(w) => ReleaseWriter(s2, w)
  }

  datatype Op =
    | NewReader
    | NewWriter
    | CopyReader(h: nat)
    | CopyWriter(h: nat)
    | DropReader(h: nat)
    | DropWriter(h: nat)
    | CloseReader(h: nat)
    | CloseWriter(h: nat)
    | RetainReader(h: nat)
    | RetainWriter(h: nat)
    | UnretainReader(h: nat)
    | UnretainWriter(h: nat)
    | EraseReader(h: nat)
    | EraseWriter(h: nat)
    | CopyStream(e: nat)
    | DropStream(e: nat)
    | CloseStream(e: nat)
    | Tee(h: nat, w: nat)
    | Untee(h: nat)

  /**
   An operation on a value needs the value; giving back a retain needs the retain.
   A copy may also be taken through an erased stream, so it needs no value.
   */
  predicate Enabled(s: State, op: Op) {
    match op
    case NewReader => true
    case NewWriter => true
    case CopyReader(h) => true
    case CopyWriter(h) => true
    case DropReader(h) => h in s.readerNames
    case DropWriter(h) => h in s.writerNames
    case CloseReader(h) => h in s.readerNames
    case CloseWriter(h) => h in s.writerNames
    case RetainReader(h) => true
    case RetainWriter(h) => true
    case UnretainReader(h) => h in s.readerRetains
    case UnretainWriter(h) => h in s.writerRetains
    case EraseReader(h) => h in s.readerNames
    case EraseWriter(h) => h in s.writerNames
    case CopyStream(e) => e in s.streamNames
    case DropStream(e) => e in s.streamNames
    case CloseStream(e) => e in s.streamNames
    case Tee(h, w) => h in s.readerNames && w in s.writerNames
    case Untee(h) => h in s.readerNames
  }

  function TeeTo(s: State, h: nat, w: nat): State
    requires h in s.readers && w in s.writers
  {
    var s1 := AddWriterRef(s, w);
    var before := s1.readers[h].tee;
    var s2 := s1.(readers := s1.readers[h := s1.readers[h].(tee := Some(w))]);
    match before case None => s2 case Some(v) => ReleaseWriter(s2, v)
  }

  function UnteeFrom(s: State, h: nat): State
    requires h in s.readers
  {
    var s' := s.(readers := s.readers[h := s.readers[h].(tee := None)]);
    match s.readers[h].tee case None => s' case Some(v) => ReleaseWriter(s', v)
  }

  function DropStreamName(s: State, e: nat): State {
    if e !in s.streams then s
    else if s.streams[e].names <= 1 then RemoveStream(s, e)
    else s.(streams := s.streams[e := s.streams[e].(names := s.streams[e].names - 1)])
  }

  function Apply(s: State, op: Op): State {
    match op
    case NewReader => s.(readers := s.readers[s.next := Reader(1, None)], next := s.next + 1, readerNames := s.readerNames + multiset{s.next})
    case NewWriter => s.(writers := s.writers[s.next := 1], next := s.next + 1, writerNames := s.writerNames + multiset{s.next})
    case CopyReader(h) =>
      if h in s.readers then AddReaderRef(s, h).(readerNames := s.readerNames + multiset{h}) else s
    case CopyWriter(h) =>
      if h in s.writers then AddWriterRef(s, h).(writerNames := s.writerNames + multiset{h}) else s
    case DropReader(h) => ReleaseReader(s.(readerNames := s.readerNames - multiset{h}), h)
    case DropWriter(h) => ReleaseWriter(s.(writerNames := s.writerNames - multiset{h}), h)
    case CloseReader(h) =>
      var s' := s.(readerNames := s.readerNames - multiset{h}, closedReaders := s.closedReaders + {h});
      if h in s.readers then RemoveReader(s', h) else s'
    case CloseWriter(h) => s.(writerNames := s.writerNames - multiset{h}, writers := s.writers - {h}, closedWriters := s.closedWriters + {h})
    case RetainReader(h) =>
      if h in s.readers then AddReaderRef(s, h).(readerRetains := s.readerRetains + multiset{h}) else s
    case RetainWriter(h) =>
      if h in s.writers then AddWriterRef(s, h).(writerRetains := s.writerRetains + multiset{h}) else s
    case UnretainReader(h) => ReleaseReader(s.(readerRetains := s.readerRetains - multiset{h}), h)
    case UnretainWriter(h) => ReleaseWriter(s.(writerRetains := s.writerRetains - multiset{h}), h)
    case EraseReader(h) =>
      if h in s.readers then
        AddReaderRef(s, h).(streams := s.streams[s.next := Stream(Some(h), None, 1)], next := s.next + 1, streamNames := s.streamNames + multiset{s.next})
      else s
    case EraseWriter(h) =>
      if h in s.writers then
        AddWriterRef(s, h).(streams := s.streams[s.next := Stream(None, Some(h), 1)], next := s.next + 1, streamNames := s.streamNames + multiset{s.next})
      else s
    case CopyStream(e) =>
      if e in s.streams then
        s.(streams := s.streams[e := s.streams[e].(names := s.streams[e].names + 1)], streamNames := s.streamNames + multiset{e})
      else s
    case DropStream(e) => DropStreamName(s.(streamNames := s.streamNames - multiset{e}), e)
    case CloseStream(e) =>
      if e in s.streams then
        RemoveStream(s.(streamNames := s.streamNames - multiset{e}, closedStreams := s.closedStreams + {e}), e)
      else s
    case Tee(h, w) => if h in s.readers && w in s.writers then TeeTo(s, h, w) else s
    case Untee(h) => if h in s.readers then UnteeFrom(s, h) else s
  }

  // ----- the invariant: every count is the number of holders -----

  ghost function ReaderStreams(streams: map<nat, Stream>, h: nat): set<nat> {
    set e | e in streams && streams[e].reader == Some(h)
  }

  ghost function WriterStreams(streams: map<nat, Stream>, h: nat): set<nat> {
    set e | e in streams && streams[e].writer == Some(h)
  }

  ghost function TeedTo(readers: map<nat, Reader>, h: nat): set<nat> {
    set r | r in readers && readers[r].tee == Some(h)
  }

  /** How many registered erased streams hold reader or writer `h`, and how many registered readers are teed to it. */
  ghost function OnReader(streams: map<nat, Stream>, h: nat): nat { |ReaderStreams(streams, h)| }
  ghost function OnWriter(streams: map<nat, Stream>, h: nat): nat { |WriterStreams(streams, h)| }
  ghost function Leases(readers: map<nat, Reader>, h: nat): nat { |TeedTo(readers, h)| }

  /** A handle is registered exactly while it is held, unless it was closed; its count is the number of holders. */
  ghost predicate ReaderCounts(s: State, h: nat, owed: nat) {
    var holders := s.readerNames[h] + s.readerRetains[h] + OnReader(s.streams, h) + owed;
    && (h in s.closedReaders ==> h < s.next && h !in s.readers)
    && (h in s.readers ==>
          && h < s.next
          && s.readers[h].refs == holders > 0
          && (s.readers[h].tee.Some? ==> s.readers[h].tee.value < s.next))
    && (h !in s.readers && h !in s.closedReaders ==> holders == 0)
  }

  ghost predicate WriterCounts(s: State, h: nat, owed: nat) {
    var holders := s.writerNames[h] + s.writerRetains[h] + OnWriter(s.streams, h) + Leases(s.readers, h) + owed;
    && (h in s.closedWriters ==> h < s.next && h !in s.writers)
    && (h in s.writers ==> h < s.next && s.writers[h] == holders > 0)
    && (h !in s.writers && h !in s.closedWriters ==> holders == 0)
  }

  ghost predicate StreamCounts(s: State, e: nat) {
    && (e in s.closedStreams ==> e < s.next && e !in s.streams)
    && (e in s.streams ==>
          && e < s.next
          && s.streams[e].names == s.streamNames[e] > 0
          && (s.streams[e].reader.Some? ==> s.streams[e].reader.value < s.next)
          && (s.streams[e].writer.Some? ==> s.streams[e].writer.value < s.next))
    && (e !in s.streams && e !in s.closedStreams ==> s.streamNames[e] == 0)
  }

  /** Only handles already handed out are named or retained. */
  ghost predicate NamesIssued(s: State, h: nat) {
    h >= s.next ==> s.readerNames[h] == s.writerNames[h] == s.streamNames[h] == s.readerRetains[h] == s.writerRetains[h] == 0
  }

  /** The counts, when `r` and `w` releases of readers and writers are still to come. */
  ghost predicate Counts(s: State, r: multiset<nat>, w: multiset<nat>) {
    && (forall h {:trigger ReaderCounts(s, h, r[h])} :: ReaderCounts(s, h, r[h]))
    && (forall h {:trigger WriterCounts(s, h, w[h])} :: WriterCounts(s, h, w[h]))
    && (forall e {:trigger StreamCounts(s, e)} :: StreamCounts(s, e))
    && (forall h {:trigger NamesIssued(s, h)} :: NamesIssued(s, h))
  }

  ghost predicate Inv(s: State) { Counts(s, multiset{}, multiset{}) }

  const EMPTY := State(map[], map[], map[], 1, multiset{}, multiset{}, multiset{}, multiset{}, multiset{}, {}, {}, {})

  // ----- how the numbers of holders change -----

  function One(o: Option<nat>, h: nat): nat { if o == Some(h) then 1 else 0 }

  function Owed(o: Option<nat>): multiset<nat> { match o case None => multiset{} case Some(h) => multiset{h} }

  /** The size of a set with and without one element. */
  lemma SizeWithout(all: set<nat>, rest: set<nat>, x: nat)
    requires rest == all - {x}
    ensures |all| == |rest| + if x in all then 1 else 0
  {
    if x in all {
      assert all == rest + {x};
    } else {
      assert all == rest;
    }
  }

  lemma LeasesWithout(m: map<nat, Reader>, h: nat, k: nat)
    ensures Leases(m, k) == Leases(m - {h}, k) + if h in m then One(m[h].tee, k) else 0
  {
    assert TeedTo(m - {h}, k) == TeedTo(m, k) - {h};
    SizeWithout(TeedTo(m, k), TeedTo(m - {h}, k), h);
  }

  lemma LeasesWith(m: map<nat, Reader>, h: nat, entry: Reader, k: nat)
    ensures Leases(m[h := entry], k) == Leases(m - {h}, k) + One(entry.tee, k)
  {
    LeasesWithout(m[h := entry], h, k);
    assert m[h := entry] - {h} == m - {h};
  }

  lemma StreamsWithout(m: map<nat, Stream>, e: nat, k: nat)
    ensures OnReader(m, k) == OnReader(m - {e}, k) + if e in m then One(m[e].reader, k) else 0
    ensures OnWriter(m, k) == OnWriter(m - {e}, k) + if e in m then One(m[e].writer, k) else 0
  {
    assert ReaderStreams(m - {e}, k) == ReaderStreams(m, k) - {e};
    SizeWithout(ReaderStreams(m, k), ReaderStreams(m - {e}, k), e);
    assert WriterStreams(m - {e}, k) == WriterStreams(m, k) - {e};
    SizeWithout(WriterStreams(m, k), WriterStreams(m - {e}, k), e);
  }

  lemma StreamsWith(m: map<nat, Stream>, e: nat, entry: Stream, k: nat)
    ensures OnReader(m[e := entry], k) == OnReader(m - {e}, k) + One(entry.reader, k)
    ensures OnWriter(m[e := entry], k) == OnWriter(m - {e}, k) + One(entry.writer, k)
  {
    StreamsWithout(m[e := entry], e, k);
    assert m[e := entry] - {e} == m - {e};
  }

  // ----- releases settle what is owed -----

  lemma ReleaseWriterAt(s: State, h: nat, k: nat, owed: nat)
    requires WriterCounts(s, k, owed + if k == h then 1 else 0)
    ensures WriterCounts(ReleaseWriter(s, h), k, owed)
  {
  }

  lemma ReleaseWriterSettles(s: State, h: nat, r: multiset<nat>, w: multiset<nat>)
    requires Counts(s, r, w + multiset{h})
    ensures Counts(ReleaseWriter(s, h), r, w)
  {
    var s' := ReleaseWriter(s, h);
    forall k ensures ReaderCounts(s', k, r[k]) { assert ReaderCounts(s, k, r[k]); }
    forall k ensures WriterCounts(s', k, w[k]) {
      assert WriterCounts(s, k, (w + multiset{h})[k]);
      assert (w + multiset{h})[k] == w[k] + if k == h then 1 else 0;
      ReleaseWriterAt(s, h, k, w[k]);
    }
    forall k ensures StreamCounts(s', k) { assert StreamCounts(s, k); }
    forall k ensures NamesIssued(s', k) { assert NamesIssued(s, k); }
  }

  lemma OptionReleaseSettles(s: State, o: Option<nat>, r: multiset<nat>, w: multiset<nat>)
    requires Counts(s, r, w + Owed(o))
    ensures Counts(match o case None => s case Some(h) => ReleaseWriter(s, h), r, w)
  {
    match o {
      case None => assert w + multiset{} == w;
      case Some(h) => ReleaseWriterSettles(s, h, r, w);
    }
  }

  /** Removing the last reference to a reader settles one release of it and passes its tee lease on as a release of the writer. */
  lemma RemoveReaderSettles(s: State, h: nat, r: multiset<nat>, w: multiset<nat>)
    requires h in s.readers && s.readers[h].refs == 1 && Counts(s, r + multiset{h}, w)
    ensures Counts(RemoveReader(s, h), r, w)
  {
    var s1, tee := s.(readers := s.readers - {h}), s.readers[h].tee;
    forall k ensures ReaderCounts(s1, k, r[k]) { assert ReaderCounts(s, k, (r + multiset{h})[k]); }
    forall k ensures WriterCounts(s1, k, (w + Owed(tee))[k]) {
      assert WriterCounts(s, k, w[k]);
      LeasesWithout(s.readers, h, k);
    }
    forall k ensures StreamCounts(s1, k) && NamesIssued(s1, k) { assert StreamCounts(s, k) && NamesIssued(s, k); }
    OptionReleaseSettles(s1, tee, r, w);
  }

  lemma ReleaseReaderSettles(s: State, h: nat, r: multiset<nat>, w: multiset<nat>)
    requires Counts(s, r + multiset{h}, w)
    ensures Counts(ReleaseReader(s, h), r, w)
  {
    if h in s.readers && s.readers[h].refs == 1 {
      RemoveReaderSettles(s, h, r, w);
    } else {
      var s' := ReleaseReader(s, h);
      forall k ensures ReaderCounts(s', k, r[k]) { assert ReaderCounts(s, k, (r + multiset{h})[k]); }
      forall k ensures WriterCounts(s', k, w[k]) {
        assert WriterCounts(s, k, w[k]);
        LeasesWithout(s.readers, h, k);
        LeasesWithout(s'.readers, h, k);
        assert s'.readers - {h} == s.readers - {h};
      }
      forall k ensures StreamCounts(s', k) && NamesIssued(s', k) { assert StreamCounts(s, k) && NamesIssued(s, k); }
    }
  }

  lemma OptionReaderSettles(s: State, o: Option<nat>, r: multiset<nat>, w: multiset<nat>)
    requires Counts(s, r + Owed(o), w)
    ensures Counts(match o case None => s case Some(h) => ReleaseReader(s, h), r, w)
  {
    match o {
      case None => assert r + multiset{} == r;
      case Some(h) => ReleaseReaderSettles(s, h, r, w);
    }
  }

  /** An erased stream that goes, by its last name or by being closed, releases what it held. */
  lemma RemoveStreamSettles(s: State, e: nat, closed: set<nat>)
    requires Inv(s) && e in s.streams
    requires (s.streams[e].names == 1 && closed == s.closedStreams) || closed == s.closedStreams + {e}
    ensures Inv(RemoveStream(s.(streamNames := s.streamNames - multiset{e}, closedStreams := closed), e))
  {
    var s0 := s.(streamNames := s.streamNames - multiset{e}, closedStreams := closed);
    assert StreamCounts(s, e);
    var s1, entry := s0.(streams := s0.streams - {e}), s.streams[e];
    var r, w := multiset{} + Owed(entry.reader), multiset{} + Owed(entry.writer);
    forall k ensures ReaderCounts(s1, k, r[k]) && WriterCounts(s1, k, w[k]) {
      assert ReaderCounts(s, k, multiset{}[k]) && WriterCounts(s, k, multiset{}[k]);
      StreamsWithout(s.streams, e, k);
    }
    forall k ensures StreamCounts(s1, k) && NamesIssued(s1, k) { assert StreamCounts(s, k) && NamesIssued(s, k); }
    OptionReaderSettles(s1, entry.reader, multiset{}, w);
    OptionReleaseSettles(match entry.reader case None => s1 case Some(x) => ReleaseReader(s1, x), entry.writer, multiset{}, multiset{});
  }

  // ----- every operation keeps the counts -----

  /** Nothing holds a handle that has not been handed out. */
  lemma Unheld(s: State, h: nat)
    requires Inv(s) && h >= s.next
    ensures h !in s.readers && h !in s.writers && h !in s.streams
    ensures OnReader(s.streams, h) == 0 && OnWriter(s.streams, h) == 0 && Leases(s.readers, h) == 0
  {
    assert ReaderCounts(s, h, multiset{}[h]) && WriterCounts(s, h, multiset{}[h]) && StreamCounts(s, h);
    forall e ensures e !in ReaderStreams(s.streams, h) && e !in WriterStreams(s.streams, h) && e !in TeedTo(s.readers, h) {
      assert StreamCounts(s, e) && ReaderCounts(s, e, multiset{}[e]);
    }
    assert ReaderStreams(s.streams, h) == {} && WriterStreams(s.streams, h) == {} && TeedTo(s.readers, h) == {};
  }

  lemma NewKeeps(s: State)
    requires Inv(s)
    ensures Inv(Apply(s, NewReader)) && Inv(Apply(s, NewWriter))
  {
    var r, w := Apply(s, NewReader), Apply(s, NewWriter);
    Unheld(s, s.next);
    assert NamesIssued(s, s.next);
    forall k
      ensures ReaderCounts(r, k, multiset{}[k]) && WriterCounts(r, k, multiset{}[k])
      ensures ReaderCounts(w, k, multiset{}[k]) && WriterCounts(w, k, multiset{}[k])
    {
      assert ReaderCounts(s, k, multiset{}[k]) && WriterCounts(s, k, multiset{}[k]);
      LeasesWith(s.readers, s.next, Reader(1, None), k);
      LeasesWithout(s.readers, s.next, k);
    }
    forall k ensures StreamCounts(r, k) && NamesIssued(r, k) && StreamCounts(w, k) && NamesIssued(w, k) {
      assert StreamCounts(s, k) && NamesIssued(s, k);
    }
  }

  /** A further reference to a reader, before its holder is recorded, leaves the count one ahead. */
  lemma AddReaderAhead(s: State, h: nat, k: nat)
    requires Inv(s) && h in s.readers
    ensures var s' := AddReaderRef(s, h);
            && ReaderCounts(s', k, 0) == (k != h)
            && (h in s'.readers && s'.readers[h].refs == s.readerNames[h] + s.readerRetains[h] + OnReader(s.streams, h) + 1)
            && Leases(s'.readers, k) == Leases(s.readers, k)
  {
    var s' := AddReaderRef(s, h);
    assert ReaderCounts(s, k, multiset{}[k]) && ReaderCounts(s, h, multiset{}[h]);
    LeasesWith(s.readers, h, s'.readers[h], k);
    LeasesWithout(s.readers, h, k);
  }

  lemma AddReaderKeeps(s: State, h: nat)
    requires Inv(s) && h in s.readers
    ensures Inv(Apply(s, CopyReader(h))) && Inv(Apply(s, RetainReader(h)))
  {
    var a, b := Apply(s, CopyReader(h)), Apply(s, RetainReader(h));
    forall k
      ensures ReaderCounts(a, k, multiset{}[k]) && WriterCounts(a, k, multiset{}[k]) && StreamCounts(a, k) && NamesIssued(a, k)
      ensures ReaderCounts(b, k, multiset{}[k]) && WriterCounts(b, k, multiset{}[k]) && StreamCounts(b, k) && NamesIssued(b, k)
    {
      assert ReaderCounts(s, k, multiset{}[k]) && WriterCounts(s, k, multiset{}[k]) && StreamCounts(s, k) && NamesIssued(s, k);
      AddReaderAhead(s, h, k);
    }
  }

  lemma AddWriterKeeps(s: State, h: nat)
    requires Inv(s) && h in s.writers
    ensures Inv(Apply(s, CopyWriter(h))) && Inv(Apply(s, RetainWriter(h)))
  {
    var a, b := Apply(s, CopyWriter(h)), Apply(s, RetainWriter(h));
    forall k
      ensures ReaderCounts(a, k, multiset{}[k]) && WriterCounts(a, k, multiset{}[k]) && StreamCounts(a, k) && NamesIssued(a, k)
      ensures ReaderCounts(b, k, multiset{}[k]) && WriterCounts(b, k, multiset{}[k]) && StreamCounts(b, k) && NamesIssued(b, k)
    {
      assert ReaderCounts(s, k, multiset{}[k]) && WriterCounts(s, k, multiset{}[k]) && StreamCounts(s, k) && NamesIssued(s, k);
    }
  }

  /** A name or retain that is given up leaves one release owed. */
  lemma GiveUpReader(s: State, h: nat, s': State)
    requires Inv(s)
    requires || (h in s.readerNames && s' == s.(readerNames := s.readerNames - multiset{h}))
             || (h in s.readerRetains && s' == s.(readerRetains := s.readerRetains - multiset{h}))
    ensures Counts(s', multiset{} + multiset{h}, multiset{})
  {
    forall k ensures ReaderCounts(s', k, (multiset{} + multiset{h})[k]) { assert ReaderCounts(s, k, multiset{}[k]); }
    forall k ensures WriterCounts(s', k, multiset{}[k]) { assert WriterCounts(s, k, multiset{}[k]); }
    forall k ensures StreamCounts(s', k) && NamesIssued(s', k) { assert StreamCounts(s, k) && NamesIssued(s, k); }
  }

  lemma GiveUpWriter(s: State, h: nat, s': State)
    requires Inv(s)
    requires || (h in s.writerNames && s' == s.(writerNames := s.writerNames - multiset{h}))
             || (h in s.writerRetains && s' == s.(writerRetains := s.writerRetains - multiset{h}))
    ensures Counts(s', multiset{}, multiset{} + multiset{h})
  {
    forall k ensures ReaderCounts(s', k, multiset{}[k]) { assert ReaderCounts(s, k, multiset{}[k]); }
    forall k ensures WriterCounts(s', k, (multiset{} + multiset{h})[k]) { assert WriterCounts(s, k, multiset{}[k]); }
    forall k ensures StreamCounts(s', k) && NamesIssued(s', k) { assert StreamCounts(s, k) && NamesIssued(s, k); }
  }

  lemma DropKeeps(s: State, op: Op)
    requires Inv(s) && Enabled(s, op)
    requires op.DropReader? || op.DropWriter? || op.UnretainReader? || op.UnretainWriter? || op.CloseReader? || op.CloseWriter?
    ensures Inv(Apply(s, op))
  {
    match op {
      case DropReader(h) =>
        GiveUpReader(s, h, s.(readerNames := s.readerNames - multiset{h}));
        ReleaseReaderSettles(s.(readerNames := s.readerNames - multiset{h}), h, multiset{}, multiset{});
      case UnretainReader(h) =>
        GiveUpReader(s, h, s.(readerRetains := s.readerRetains - multiset{h}));
        ReleaseReaderSettles(s.(readerRetains := s.readerRetains - multiset{h}), h, multiset{}, multiset{});
      case DropWriter(h) =>
        GiveUpWriter(s, h, s.(writerNames := s.writerNames - multiset{h}));
        ReleaseWriterSettles(s.(writerNames := s.writerNames - multiset{h}), h, multiset{}, multiset{});
      case UnretainWriter(h) =>
        GiveUpWriter(s, h, s.(writerRetains := s.writerRetains - multiset{h}));
        ReleaseWriterSettles(s.(writerRetains := s.writerRetains - multiset{h}), h, multiset{}, multiset{});
      case CloseReader(h) => CloseReaderKeeps(s, h);
      case CloseWriter(h) => CloseWriterKeeps(s, h);
    }
  }

  lemma CloseReaderKeeps(s: State, h: nat)
    requires Inv(s) && h in s.readerNames
    ensures Inv(Apply(s, CloseReader(h)))
  {
    var s1 := s.(readerNames := s.readerNames - multiset{h}, closedReaders := s.closedReaders + {h}, readers := s.readers - {h});
    var tee := if h in s.readers then s.readers[h].tee else None;
    assert NamesIssued(s, h);
    forall k ensures ReaderCounts(s1, k, multiset{}[k]) { assert ReaderCounts(s, k, multiset{}[k]); }
    forall k ensures WriterCounts(s1, k, (multiset{} + Owed(tee))[k]) {
      assert WriterCounts(s, k, multiset{}[k]);
      LeasesWithout(s.readers, h, k);
    }
    forall k ensures StreamCounts(s1, k) && NamesIssued(s1, k) { assert StreamCounts(s, k) && NamesIssued(s, k); }
    OptionReleaseSettles(s1, tee, multiset{}, multiset{});
    assert h !in s.readers ==> s.readers - {h} == s.readers;
  }

  lemma CloseWriterKeeps(s: State, h: nat)
    requires Inv(s) && h in s.writerNames
    ensures Inv(Apply(s, CloseWriter(h)))
  {
    var s' := Apply(s, CloseWriter(h));
    assert NamesIssued(s, h);
    forall k ensures ReaderCounts(s', k, multiset{}[k]) { assert ReaderCounts(s, k, multiset{}[k]); }
    forall k ensures WriterCounts(s', k, multiset{}[k]) { assert WriterCounts(s, k, multiset{}[k]); }
    forall k ensures StreamCounts(s', k) && NamesIssued(s', k) { assert StreamCounts(s, k) && NamesIssued(s, k); }
  }

  lemma EraseReaderKeeps(s: State, h: nat)
    requires Inv(s) && h in s.readers
    ensures Inv(Apply(s, EraseReader(h)))
  {
    var s', e := Apply(s, EraseReader(h)), s.next;
    Unheld(s, e);
    assert NamesIssued(s, e) && ReaderCounts(s, h, multiset{}[h]);
    forall k ensures ReaderCounts(s', k, multiset{}[k]) && WriterCounts(s', k, multiset{}[k]) {
      assert ReaderCounts(s, k, multiset{}[k]) && WriterCounts(s, k, multiset{}[k]);
      AddReaderAhead(s, h, k);
      StreamsWith(s.streams, e, Stream(Some(h), None, 1), k);
      StreamsWithout(s.streams, e, k);
    }
    forall k ensures StreamCounts(s', k) && NamesIssued(s', k) { assert StreamCounts(s, k) && NamesIssued(s, k); }
  }

  lemma EraseWriterKeeps(s: State, h: nat)
    requires Inv(s) && h in s.writers
    ensures Inv(Apply(s, EraseWriter(h)))
  {
    var s', e := Apply(s, EraseWriter(h)), s.next;
    Unheld(s, e);
    assert NamesIssued(s, e) && WriterCounts(s, h, multiset{}[h]);
    forall k ensures ReaderCounts(s', k, multiset{}[k]) && WriterCounts(s', k, multiset{}[k]) {
      assert ReaderCounts(s, k, multiset{}[k]) && WriterCounts(s, k, multiset{}[k]);
      StreamsWith(s.streams, e, Stream(None, Some(h), 1), k);
      StreamsWithout(s.streams, e, k);
    }
    forall k ensures StreamCounts(s', k) && NamesIssued(s', k) { assert StreamCounts(s, k) && NamesIssued(s, k); }
  }

  /** Changing how many values name an erased stream does not change what it holds. */
  lemma RenameStreamKeeps(s: State, e: nat, n: nat, names: multiset<nat>)
    requires Inv(s) && e in s.streams && n > 0 && names[e] == n && forall k :: k != e ==> names[k] == s.streamNames[k]
    ensures Inv(s.(streams := s.streams[e := s.streams[e].(names := n)], streamNames := names))
  {
    var s' := s.(streams := s.streams[e := s.streams[e].(names := n)], streamNames := names);
    assert StreamCounts(s, e);
    forall k ensures ReaderCounts(s', k, multiset{}[k]) && WriterCounts(s', k, multiset{}[k]) {
      assert ReaderCounts(s, k, multiset{}[k]) && WriterCounts(s, k, multiset{}[k]);
      StreamsWith(s.streams, e, s'.streams[e], k);
      StreamsWithout(s.streams, e, k);
    }
    forall k ensures StreamCounts(s', k) && NamesIssued(s', k) { assert StreamCounts(s, k) && NamesIssued(s, k); }
  }

  lemma ForgetStreamName(s: State, e: nat)
    requires Inv(s) && e !in s.streams
    ensures Inv(s.(streamNames := s.streamNames - multiset{e}))
  {
    var s' := s.(streamNames := s.streamNames - multiset{e});
    forall k ensures ReaderCounts(s', k, multiset{}[k]) && WriterCounts(s', k, multiset{}[k]) {
      assert ReaderCounts(s, k, multiset{}[k]) && WriterCounts(s, k, multiset{}[k]);
    }
    forall k ensures StreamCounts(s', k) && NamesIssued(s', k) { assert StreamCounts(s, k) && NamesIssued(s, k); }
  }

  lemma StreamOpKeeps(s: State, op: Op)
    requires Inv(s) && Enabled(s, op) && (op.CopyStream? || op.DropStream? || op.CloseStream?)
    ensures Inv(Apply(s, op))
  {
    var e := op.e;
    assert StreamCounts(s, e);
    if e !in s.streams {
      ForgetStreamName(s, e);
    } else if op.CopyStream? {
      RenameStreamKeeps(s, e, s.streams[e].names + 1, s.streamNames + multiset{e});
    } else if op.CloseStream? {
      RemoveStreamSettles(s, e, s.closedStreams + {e});
    } else if s.streams[e].names > 1 {
      RenameStreamKeeps(s, e, s.streams[e].names - 1, s.streamNames - multiset{e});
    } else {
      RemoveStreamSettles(s, e, s.closedStreams);
    }
  }

  /** Changing a reader's tee moves one lease. */
  lemma SetTeeSettles(s: State, h: nat, tee: Option<nat>, owed: multiset<nat>)
    requires h in s.readers && Counts(s, multiset{}, owed + Owed(tee)) && (tee.Some? ==> tee.value < s.next)
    ensures Counts(s.(readers := s.readers[h := s.readers[h].(tee := tee)]), multiset{}, owed + Owed(s.readers[h].tee))
  {
    var before, s' := s.readers[h].tee, s.(readers := s.readers[h := s.readers[h].(tee := tee)]);
    forall k ensures ReaderCounts(s', k, multiset{}[k]) { assert ReaderCounts(s, k, multiset{}[k]); }
    forall k ensures WriterCounts(s', k, (owed + Owed(before))[k]) {
      assert WriterCounts(s, k, (owed + Owed(tee))[k]);
      LeasesWith(s.readers, h, s'.readers[h], k);
      LeasesWithout(s.readers, h, k);
      assert Owed(tee)[k] == One(tee, k) && Owed(before)[k] == One(before, k);
    }
    forall k ensures StreamCounts(s', k) && NamesIssued(s', k) { assert StreamCounts(s, k) && NamesIssued(s, k); }
  }

  lemma TeeKeeps(s: State, h: nat, w: nat)
    requires Inv(s) && h in s.readers && w in s.writers
    ensures Inv(TeeTo(s, h, w))
  {
    var s1 := AddWriterRef(s, w);
    assert WriterCounts(s, w, multiset{}[w]);
    forall k ensures WriterCounts(s1, k, (multiset{} + Owed(Some(w)))[k]) { assert WriterCounts(s, k, multiset{}[k]); }
    forall k ensures ReaderCounts(s1, k, multiset{}[k]) { assert ReaderCounts(s, k, multiset{}[k]); }
    forall k ensures StreamCounts(s1, k) && NamesIssued(s1, k) { assert StreamCounts(s, k) && NamesIssued(s, k); }
    SetTeeSettles(s1, h, Some(w), multiset{});
    OptionReleaseSettles(s1.(readers := s1.readers[h := s1.readers[h].(tee := Some(w))]), s1.readers[h].tee, multiset{}, multiset{});
  }

  lemma UnteeKeeps(s: State, h: nat)
    requires Inv(s) && h in s.readers
    ensures Inv(UnteeFrom(s, h))
  {
    assert multiset{} + Owed(None) == multiset{};
    SetTeeSettles(s, h, None, multiset{});
    OptionReleaseSettles(s.(readers := s.readers[h := s.readers[h].(tee := None)]), s.readers[h].tee, multiset{}, multiset{});
  }

  lemma OpKeeps(s: State, op: Op)
    requires Inv(s) && Enabled(s, op)
    ensures Inv(Apply(s, op))
  {
    match op {
      case NewReader => NewKeeps(s);
      case NewWriter => NewKeeps(s);
      case CopyReader(h) => if h in s.readers { AddReaderKeeps(s, h); }
      case CopyWriter(h) => if h in s.writers { AddWriterKeeps(s, h); }
      case RetainReader(h) => if h in s.readers { AddReaderKeeps(s, h); }
      case RetainWriter(h) => if h in s.writers { AddWriterKeeps(s, h); }
      case EraseReader(h) => if h in s.readers { EraseReaderKeeps(s, h); }
      case EraseWriter(h) => if h in s.writers { EraseWriterKeeps(s, h); }
      case CopyStream(_) => StreamOpKeeps(s, op);
      case DropStream(_) => StreamOpKeeps(s, op);
      case CloseStream(_) => StreamOpKeeps(s, op);
      case Tee(h, w) => if h in s.readers && w in s.writers { TeeKeeps(s, h, w); }
      case Untee(h) => if h in s.readers { UnteeKeeps(s, h); }
      case _ => DropKeeps(s, op);
    }
  }

  // ----- whole runs -----

  function Run(s: State, ops: seq<Op>): State
    decreases ops
  {
    if ops == [] then s else Run(Apply(s, ops[0]), ops[1..])
  }

  predicate Allowed(s: State, ops: seq<Op>)
    decreases ops
  {
    ops == [] || (Enabled(s, ops[0]) && Allowed(Apply(s, ops[0]), ops[1..]))
  }

  lemma {:induction false} RunKeeps(s: State, ops: seq<Op>)
    requires Inv(s) && Allowed(s, ops)
    ensures Inv(Run(s, ops))
    decreases ops
  {
    if ops != [] {
      OpKeeps(s, ops[0]);
      RunKeeps(Apply(s, ops[0]), ops[1..]);
    }
  }

  lemma StartIsCounted()
    ensures Inv(EMPTY)
  {
    forall k ensures ReaderCounts(EMPTY, k, multiset{}[k]) && WriterCounts(EMPTY, k, multiset{}[k]) {
      assert ReaderStreams(map[], k) == {} && WriterStreams(map[], k) == {} && TeedTo(map[], k) == {};
    }
  }

  /**
   In every run from the start, each count is the number of live names, retains,
   erased streams and tee leases; and a handle that was not closed is registered
   exactly while something holds it.
   */
  lemma CountsAreHolders(ops: seq<Op>, h: nat)
    requires Allowed(EMPTY, ops)
    ensures var s := Run(EMPTY, ops);
            var holders := s.readerNames[h] + s.readerRetains[h] + OnReader(s.streams, h);
            && (h in s.readers ==> s.readers[h].refs == holders)
            && (h !in s.closedReaders ==> (h in s.readers <==> holders > 0))
    ensures var s := Run(EMPTY, ops);
            var holders := s.writerNames[h] + s.writerRetains[h] + OnWriter(s.streams, h) + Leases(s.readers, h);
            && (h in s.writers ==> s.writers[h] == holders)
            && (h !in s.closedWriters ==> (h in s.writers <==> holders > 0))
    ensures var s := Run(EMPTY, ops);
            && (h in s.streams ==> s.streams[h].names == s.streamNames[h])
            && (h !in s.closedStreams ==> (h in s.streams <==> s.streamNames[h] > 0))
  {
    StartIsCounted();
    RunKeeps(EMPTY, ops);
    var s := Run(EMPTY, ops);
    assert ReaderCounts(s, h, multiset{}[h]) && WriterCounts(s, h, multiset{}[h]) && StreamCounts(s, h);
  }

  /** When no value names a handle and no retain is outstanding, all three registries are empty. */
  lemma NothingIsLeaked(ops: seq<Op>)
    requires Allowed(EMPTY, ops)
    requires var s := Run(EMPTY, ops);
             s.readerNames == s.writerNames == s.streamNames == s.readerRetains == s.writerRetains == multiset{}
    ensures var s := Run(EMPTY, ops); s.readers == map[] && s.writers == map[] && s.streams == map[]
  {
    StartIsCounted();
    RunKeeps(EMPTY, ops);
    var s := Run(EMPTY, ops);
    forall e ensures e !in s.streams { assert StreamCounts(s, e); }
    assert s.streams == map[];
    forall h ensures h !in s.readers {
      assert ReaderCounts(s, h, multiset{}[h]);
      assert ReaderStreams(map[], h) == {};
    }
    assert s.readers == map[];
    forall h ensures h !in s.writers {
      assert WriterCounts(s, h, multiset{}[h]);
      assert WriterStreams(map[], h) == {} && TeedTo(map[], h) == {};
    }
    assert s.writers == map[];
  }

  /** What was closed explicitly. */
  function Closed(s: State): (set<nat>, set<nat>, set<nat>) { (s.closedReaders, s.closedWriters, s.closedStreams) }

  lemma ReleasesKeepClosed(s: State, h: nat)
    ensures Closed(ReleaseWriter(s, h)) == Closed(ReleaseReader(s, h)) == Closed(s)
  {
  }

  lemma StreamsKeepClosed(s: State, e: nat)
    requires e in s.streams
    ensures Closed(RemoveStream(s, e)) == Closed(s)
  {
    var s1 := s.(streams := s.streams - {e});
    if s.streams[e].reader.Some? {
      ReleasesKeepClosed(s1, s.streams[e].reader.value);
    }
  }

  lemma RemovalKeepsClosed(s: State, h: nat)
    ensures h in s.readers ==> Closed(RemoveReader(s, h)) == Closed(s)
  {
  }

  lemma DropKeepsClosed(s: State, e: nat)
    ensures Closed(DropStreamName(s, e)) == Closed(s)
  {
    if e in s.streams {
      StreamsKeepClosed(s, e);
    }
  }

  lemma TeesKeepClosed(s: State, h: nat, w: nat)
    ensures h in s.readers && w in s.writers ==> Closed(TeeTo(s, h, w)) == Closed(s)
    ensures h in s.readers ==> Closed(UnteeFrom(s, h)) == Closed(s)
  {
  }

  /** Making, copying, retaining and erasing close nothing. */
  lemma MakingKeepsClosed(s: State, op: Op)
    requires || op.NewReader? || op.NewWriter? || op.CopyReader? || op.CopyWriter? || op.CopyStream?
             || op.RetainReader? || op.RetainWriter? || op.EraseReader? || op.EraseWriter?
    ensures Closed(Apply(s, op)) == Closed(s)
  {
  }

  lemma OpKeepsClosed(s: State, op: Op)
    ensures var s' := Apply(s, op);
            s.closedReaders <= s'.closedReaders && s.closedWriters <= s'.closedWriters && s.closedStreams <= s'.closedStreams
  {
    match op {
      case DropReader(h) => ReleasesKeepClosed(s.(readerNames := s.readerNames - multiset{h}), h);
      case DropWriter(h) => ReleasesKeepClosed(s.(writerNames := s.writerNames - multiset{h}), h);
      case UnretainReader(h) => ReleasesKeepClosed(s.(readerRetains := s.readerRetains - multiset{h}), h);
      case UnretainWriter(h) => ReleasesKeepClosed(s.(writerRetains := s.writerRetains - multiset{h}), h);
      case CloseReader(h) => RemovalKeepsClosed(s.(readerNames := s.readerNames - multiset{h}, closedReaders := s.closedReaders + {h}), h);
      case DropStream(e) => DropKeepsClosed(s.(streamNames := s.streamNames - multiset{e}), e);
      case CloseStream(e) =>
        if e in s.streams {
          StreamsKeepClosed(s.(streamNames := s.streamNames - multiset{e}, closedStreams := s.closedStreams + {e}), e);
        }
      case Tee(h, w) => TeesKeepClosed(s, h, w);
      case Untee(h) => TeesKeepClosed(s, h, 0);
      case CloseWriter(_) =>
      case _ => MakingKeepsClosed(s, op);
    }
  }

  lemma {:induction false} ClosedStaysClosed(s: State, ops: seq<Op>)
    ensures s.closedReaders <= Run(s, ops).closedReaders
    ensures s.closedWriters <= Run(s, ops).closedWriters
    ensures s.closedStreams <= Run(s, ops).closedStreams
    decreases ops
  {
    if ops != [] {
      OpKeepsClosed(s, ops[0]);
      ClosedStaysClosed(Apply(s, ops[0]), ops[1..]);
    }
  }

  /** The registries, without the record of who holds what. */
  function Registries(s: State): (map<nat, Reader>, map<nat, nat>, map<nat, Stream>) {
    (s.readers, s.writers, s.streams)
  }

  lemma ReleaseOfUnregistered(s: State, h: nat)
    ensures h !in s.readers ==> Registries(Apply(s, DropReader(h))) == Registries(Apply(s, UnretainReader(h))) == Registries(s)
    ensures h !in s.writers ==> Registries(Apply(s, DropWriter(h))) == Registries(Apply(s, UnretainWriter(h))) == Registries(s)
  {
  }

  /** However a run goes on after an explicit close, the handle stays unregistered and releasing it does nothing. */
  lemma CloseIsFinal(ops: seq<Op>, h: nat, more: seq<Op>)
    requires Allowed(EMPTY, ops) && h in Run(EMPTY, ops).readerNames
    requires Allowed(Apply(Run(EMPTY, ops), CloseReader(h)), more)
    ensures var s := Run(Apply(Run(EMPTY, ops), CloseReader(h)), more);
            && h !in s.readers
            && Registries(Apply(s, DropReader(h))) == Registries(Apply(s, UnretainReader(h))) == Registries(s)
  {
    StartIsCounted();
    RunKeeps(EMPTY, ops);
    var s := Run(EMPTY, ops);
    OpKeeps(s, CloseReader(h));
    ClosedStaysClosed(Apply(s, CloseReader(h)), more);
    RunKeeps(Apply(s, CloseReader(h)), more);
    assert ReaderCounts(Run(Apply(s, CloseReader(h)), more), h, multiset{}[h]);
    ReleaseOfUnregistered(Run(Apply(s, CloseReader(h)), more), h);
  }

  lemma CloseWriterIsFinal(ops: seq<Op>, h: nat, more: seq<Op>)
    requires Allowed(EMPTY, ops) && h in Run(EMPTY, ops).writerNames
    requires Allowed(Apply(Run(EMPTY, ops), CloseWriter(h)), more)
    ensures var s := Run(Apply(Run(EMPTY, ops), CloseWriter(h)), more);
            && h !in s.writers
            && Registries(Apply(s, DropWriter(h))) == Registries(Apply(s, UnretainWriter(h))) == Registries(s)
  {
    StartIsCounted();
    RunKeeps(EMPTY, ops);
    var s := Run(EMPTY, ops);
    OpKeeps(s, CloseWriter(h));
    ClosedStaysClosed(Apply(s, CloseWriter(h)), more);
    RunKeeps(Apply(s, CloseWriter(h)), more);
    assert WriterCounts(Run(Apply(s, CloseWriter(h)), more), h, multiset{}[h]);
    ReleaseOfUnregistered(Run(Apply(s, CloseWriter(h)), more), h);
  }

  // ----- the registries in place -----

  /** The three tables and the handle counter; `ledger` records the holders. */
  class Registry {
    var readers: map<nat, Reader>
    var writers: map<nat, nat>
    var streams: map<nat, Stream>
    var next: nat
    ghost var ledger: State

    ghost function Snapshot(): State
      reads this
    {
      ledger.(readers := readers, writers := writers, streams := streams, next := next)
    }

    constructor ()
      ensures Snapshot() == EMPTY && Inv(Snapshot())
    {
      readers, writers, streams, next := map[], map[], map[], 1;
      ledger := EMPTY;
      new;
      StartIsCounted();
    }

    method NextHandle() returns (h: nat)
      modifies `next
      ensures h == old(next) && next == h + 1
    {
      h := next;
      next := next + 1;
    }

    method ReleaseWriterRef(h: nat)
      modifies `writers
      ensures Snapshot() == ReleaseWriter(old(Snapshot()), h)
    {
      if h !in writers {
        return;
      }
      var refs := writers[h];
      if refs == 1 {
        writers := writers - {h};
      } else if refs > 0 {
        writers := writers[h := refs - 1];
      }
    }

    method ReleaseReaderRef(h: nat)
      modifies `readers, `writers
      ensures Snapshot() == ReleaseReader(old(Snapshot()), h)
    {
      if h !in readers {
        return;
      }
      var entry := readers[h];
      if entry.refs == 1 {
        readers := readers - {h};
        if entry.tee.Some? {
          ReleaseWriterRef(entry.tee.value);
        }
      } else if entry.refs > 0 {
        readers := readers[h := entry.(refs := entry.refs - 1)];
      }
    }

    method ReleaseHandle(h: nat, reader: bool)
      modifies `readers, `writers
      ensures Snapshot() == if reader then ReleaseReader(old(Snapshot()), h) else ReleaseWriter(old(Snapshot()), h)
    {
      if reader {
        ReleaseReaderRef(h);
      } else {
        ReleaseWriterRef(h);
      }
    }

    /** Another value for the same handle; the copy of a handle that is no longer registered names nothing. */
    method CopyHandle(h: nat, reader: bool) returns (copy: nat)
      requires Inv(Snapshot())
      modifies this
      ensures var op := if reader then CopyReader(h) else CopyWriter(h);
              Snapshot() == Apply(old(Snapshot()), op) && Inv(Snapshot())
      ensures copy == if (reader && h in old(readers)) || (!reader && h in old(writers)) then h else 0
    {
      OpKeeps(Snapshot(), if reader then CopyReader(h) else CopyWriter(h));
      copy := 0;
      if reader && h in readers {
        readers := readers[h := readers[h].(refs := readers[h].refs + 1)];
        ledger := ledger.(readerNames := ledger.readerNames + multiset{h});
        copy := h;
      } else if !reader && h in writers {
        writers := writers[h := writers[h] + 1];
        ledger := ledger.(writerNames := ledger.writerNames + multiset{h});
        copy := h;
      }
    }

    method NewEntry(reader: bool) returns (h: nat)
      requires Inv(Snapshot())
      modifies this
      ensures Snapshot() == Apply(old(Snapshot()), if reader then NewReader else NewWriter) && Inv(Snapshot())
      ensures h == old(next)
    {
      OpKeeps(Snapshot(), if reader then NewReader else NewWriter);
      h := NextHandle();
      if reader {
        readers := readers[h := Reader(1, None)];
        ledger := ledger.(readerNames := ledger.readerNames + multiset{h});
      } else {
        writers := writers[h := 1];
        ledger := ledger.(writerNames := ledger.writerNames + multiset{h});
      }
    }

    method DropHandle(h: nat, reader: bool)
      requires Inv(Snapshot()) && Enabled(Snapshot(), if reader then DropReader(h) else DropWriter(h))
      modifies this
      ensures Snapshot() == Apply(old(Snapshot()), if reader then DropReader(h) else DropWriter(h)) && Inv(Snapshot())
    {
      OpKeeps(Snapshot(), if reader then DropReader(h) else DropWriter(h));
      if reader {
        ledger := ledger.(readerNames := ledger.readerNames - multiset{h});
      } else {
        ledger := ledger.(writerNames := ledger.writerNames - multiset{h});
      }
      ReleaseHandle(h, reader);
    }

    method CloseHandle(h: nat, reader: bool)
      requires Inv(Snapshot()) && Enabled(Snapshot(), if reader then CloseReader(h) else CloseWriter(h))
      modifies this
      ensures Snapshot() == Apply(old(Snapshot()), if reader then CloseReader(h) else CloseWriter(h)) && Inv(Snapshot())
    {
      OpKeeps(Snapshot(), if reader then CloseReader(h) else CloseWriter(h));
      if reader {
        ledger := ledger.(readerNames := ledger.readerNames - multiset{h}, closedReaders := ledger.closedReaders + {h});
        if h in readers {
          var tee := readers[h].tee;
          readers := readers - {h};
          if tee.Some? {
            ReleaseWriterRef(tee.value);
          }
        }
      } else {
        ledger := ledger.(writerNames := ledger.writerNames - multiset{h}, closedWriters := ledger.closedWriters + {h});
        writers := writers - {h};
      }
    }

    /** Retain a handle for another holder; fails when it is not registered. */
    method RetainHandle(h: nat, reader: bool) returns (ok: bool)
      modifies `readers, `writers
      ensures ok == if reader then h in old(readers) else h in old(writers)
      ensures Snapshot() ==
              if !ok then old(Snapshot())
              else if reader then AddReaderRef(old(Snapshot()), h)
              else AddWriterRef(old(Snapshot()), h)
    {
      ok := if reader then h in readers else h in writers;
      if ok && reader {
        readers := readers[h := readers[h].(refs := readers[h].refs + 1)];
      } else if ok {
        writers := writers[h := writers[h] + 1];
      }
    }

    method EraseHandle(h: nat, reader: bool) returns (erased: Option<nat>)
      requires Inv(Snapshot()) && Enabled(Snapshot(), if reader then EraseReader(h) else EraseWriter(h))
      modifies this
      ensures Snapshot() == Apply(old(Snapshot()), if reader then EraseReader(h) else EraseWriter(h)) && Inv(Snapshot())
      ensures erased == if (reader && h in old(readers)) || (!reader && h in old(writers)) then Some(old(next)) else None
    {
      OpKeeps(Snapshot(), if reader then EraseReader(h) else EraseWriter(h));
      var retained := RetainHandle(h, reader);
      if !retained {
        return None;
      }
      var e := NextHandle();
      streams := streams[e := Stream(if reader then Some(h) else None, if reader then None else Some(h), 1)];
      ledger := ledger.(streamNames := ledger.streamNames + multiset{e});
      erased := Some(e);
    }

    method RemoveErased(e: nat)
      requires e in streams
      modifies `readers, `writers, `streams
      ensures Snapshot() == RemoveStream(old(Snapshot()), e)
    {
      var entry := streams[e];
      streams := streams - {e};
      if entry.reader.Some? {
        ReleaseReaderRef(entry.reader.value);
      }
      if entry.writer.Some? {
        ReleaseWriterRef(entry.writer.value);
      }
    }

    method DropErased(e: nat)
      requires Inv(Snapshot()) && Enabled(Snapshot(), DropStream(e))
      modifies this
      ensures Snapshot() == Apply(old(Snapshot()), DropStream(e)) && Inv(Snapshot())
    {
      OpKeeps(Snapshot(), DropStream(e));
      ledger := ledger.(streamNames := ledger.streamNames - multiset{e});
      if e in streams {
        var names := if streams[e].names == 0 then 0 else streams[e].names - 1;
        if names == 0 {
          RemoveErased(e);
        } else {
          streams := streams[e := streams[e].(names := names)];
        }
      }
    }

    method CloseErased(e: nat)
      requires Inv(Snapshot()) && Enabled(Snapshot(), CloseStream(e))
      modifies this
      ensures Snapshot() == Apply(old(Snapshot()), CloseStream(e)) && Inv(Snapshot())
    {
      OpKeeps(Snapshot(), CloseStream(e));
      if e in streams {
        ledger := ledger.(streamNames := ledger.streamNames - multiset{e}, closedStreams := ledger.closedStreams + {e});
        RemoveErased(e);
      }
    }

    method TeeReader(h: nat, w: nat) returns (ok: bool)
      requires Inv(Snapshot()) && Enabled(Snapshot(), Tee(h, w))
      modifies this
      ensures Snapshot() == Apply(old(Snapshot()), Tee(h, w)) && Inv(Snapshot())
      ensures ok <==> h in old(readers) && w in old(writers)
    {
      OpKeeps(Snapshot(), Tee(h, w));
      if h !in readers || w !in writers {
        return false;
      }
      var retained := RetainHandle(w, false);
      var before := readers[h].tee;
      readers := readers[h := readers[h].(tee := Some(w))];
      if before.Some? {
        ReleaseWriterRef(before.value);
      }
      ok := true;
    }

    method UnteeReader(h: nat) returns (ok: bool)
      requires Inv(Snapshot()) && Enabled(Snapshot(), Untee(h))
      modifies this
      ensures Snapshot() == Apply(old(Snapshot()), Untee(h)) && Inv(Snapshot())
      ensures ok <==> h in old(readers)
    {
      OpKeeps(Snapshot(), Untee(h));
      if h !in readers {
        return false;
      }
      var before := readers[h].tee;
      readers := readers[h := readers[h].(tee := None)];
      if before.Some? {
        ReleaseWriterRef(before.value);
      }
      ok := true;
    }
  }
}
