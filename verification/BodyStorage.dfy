/** The two request-body storages of common/body_storage.go: one over a byte
    slice, one over a cache file. Both are proved against the same kind of step
    function, and then compared over every sequence of operations. */
module BodyStorage {
  import opened Common

  datatype Whence = FromStart | FromCurrent | FromEnd

  /** What a caller sees of one operation. */
  datatype Seen =
    | Data(bytes: Bytes)
    | Eof
    | At(pos: int)
    | NegativePosition
    | All(bytes: Bytes)
    | SizeIs(size: nat)
    | Done
    | ReaderMade(id: nat)
    | ErrStorageClosed
    | ErrFileClosed
    | NoSuchReader

  // ---- bytes.Reader and os.File --------------------------------------------------

  function Target(size: nat, pos: nat, offset: int, whence: Whence): int {
    match whence
    case FromStart => offset
    case FromCurrent => pos + offset
    case FromEnd => size + offset
  }

  /** The bytes a read of at most n returns at a position inside the payload. */
  function Chunk(data: Bytes, pos: nat, n: nat): (r: Bytes)
    ensures pos >= |data| || n == 0 ==> r == []
    ensures pos <= |data| ==> |r| == (if |data| - pos < n then |data| - pos else n) && r == data[pos..pos + |r|]
  {
    if pos >= |data| then [] else if pos + n > |data| then data[pos..] else data[pos..pos + n]
  }

  /** bytes.Reader: at the end it reports EOF whatever the buffer. */
  function SliceRead(data: Bytes, pos: nat, n: nat): Seen {
    if pos >= |data| then Eof else Data(Chunk(data, pos, n))
  }

  /** os.File on a regular file: an empty buffer is always satisfied. */
  function FileRead(data: Bytes, pos: nat, n: nat): Seen {
    if n == 0 then Data([]) else if pos >= |data| then Eof else Data(Chunk(data, pos, n))
  }

  class SliceReader {
    const data: Bytes
    var pos: nat

    constructor (data: Bytes)
      ensures this.data == data && pos == 0
    {
      this.data := data;
      pos := 0;
    }

    method Read(n: nat) returns (seen: Seen)
      modifies this
      ensures seen == SliceRead(data, old(pos), n) && pos == old(pos) + |Chunk(data, old(pos), n)|
    {
      if pos >= |data| { return Eof; }
      var chunk := Chunk(data, pos, n);
      pos := pos + |chunk|;
      return Data(chunk);
    }

    method Seek(offset: int, whence: Whence) returns (seen: Seen)
      modifies this
      ensures var to := Target(|data|, old(pos), offset, whence);
              if to < 0 then seen == NegativePosition && pos == old(pos) else seen == At(to) && pos == to
    {
      var to := Target(|data|, pos, offset, whence);
      if to < 0 { return NegativePosition; }
      pos := to;
      return At(to);
    }
  }

  class OpenFile {
    const content: Bytes
    var pos: nat
    var closed: bool

    constructor (content: Bytes)
      ensures this.content == content && pos == 0 && !closed
    {
      this.content := content;
      pos, closed := 0, false;
    }

    method Read(n: nat) returns (seen: Seen)
      modifies this
      ensures closed == old(closed)
      ensures closed ==> seen == ErrFileClosed && pos == old(pos)
      ensures !closed ==> seen == FileRead(content, old(pos), n) && pos == old(pos) + |Chunk(content, old(pos), n)|
    {
      if closed { return ErrFileClosed; }
      if n == 0 { return Data([]); }
      if pos >= |content| { return Eof; }
      var chunk := Chunk(content, pos, n);
      pos := pos + |chunk|;
      return Data(chunk);
    }

    method Seek(offset: int, whence: Whence) returns (seen: Seen)
      requires !closed
      modifies this
      ensures !closed
      ensures var to := Target(|content|, old(pos), offset, whence);
              if to < 0 then seen == NegativePosition && pos == old(pos) else seen == At(to) && pos == to
    {
      var to := Target(|content|, pos, offset, whence);
      if to < 0 { return NegativePosition; }
      pos := to;
      return At(to);
    }

    method Close() returns (seen: Seen)
      modifies this
      ensures closed && pos == old(pos) && seen == if old(closed) then ErrFileClosed else Done
    {
      if closed { return ErrFileClosed; }
      closed := true;
      return Done;
    }
  }

  // ---- The storages -----------------------------------------------------------------

  /** A payload with a cursor; after Close every operation but Size fails. */
  datatype Core = Core(data: Bytes, pos: nat, closed: bool)

  datatype Op = Read(n: nat) | Seek(offset: int, whence: Whence) | GetBytes | Size | Close

  /** One operation on a storage, with the given way of reading. */
  function Step(read: (Bytes, nat, nat) -> Seen, s: Core, op: Op): (r: (Core, Seen)) {
    if op == Size then (s, SizeIs(|s.data|))
    else if op == Close then (s.(closed := true), Done)
    else if s.closed then (s, ErrStorageClosed)
    else if op.Read? then (s.(pos := s.pos + |Chunk(s.data, s.pos, op.n)|), read(s.data, s.pos, op.n))
    else if op.Seek? then
      var to := Target(|s.data|, s.pos, op.offset, op.whence);
      if to < 0 then (s, NegativePosition) else (s.(pos := to), At(to))
    else (s, All(s.data))
  }

  class MemoryStorage {
    const data: Bytes
    const reader: SliceReader
    var closed: bool

    ghost predicate Valid()
      reads this, reader
    {
      reader.data == data
    }

    function View(): Core
      reads this, reader
    {
      Core(data, reader.pos, closed)
    }

    constructor (data: Bytes)
      ensures Valid() && fresh(reader) && View() == Core(data, 0, false)
    {
      this.data := data;
      reader := new SliceReader(data);
      closed := false;
    }

    method Perform(op: Op) returns (seen: Seen)
      requires Valid()
      modifies this, reader
      ensures Valid() && (View(), seen) == Step(SliceRead, old(View()), op)
    {
      match op
      case Read(n) =>
        if closed { return ErrStorageClosed; }
        seen := reader.Read(n);
      case Seek(offset, whence) =>
        if closed { return ErrStorageClosed; }
        seen := reader.Seek(offset, whence);
      case GetBytes =>
        if closed { return ErrStorageClosed; }
        return All(data);
      case Size => return SizeIs(|data|);
      case Close =>
        closed := true;
        return Done;
    }

    /** A reader of its own, at the start, over the shared payload. */
    method NewReader() returns (r: SliceReader?)
      requires Valid()
      ensures r == null <==> closed
      ensures r != null ==> fresh(r) && r.data == data && r.pos == 0
    {
      if closed { return null; }
      r := new SliceReader(data);
    }
  }

  class DiskStorage {
    const file: OpenFile
    const size: nat
    var closed: bool

    ghost predicate Valid()
      reads this, file
    {
      size == |file.content| && (file.closed <==> closed)
    }

    function View(): Core
      reads this, file
    {
      Core(file.content, file.pos, closed)
    }

    constructor (data: Bytes)
      ensures Valid() && fresh(file) && View() == Core(data, 0, false)
    {
      file := new OpenFile(data);
      size := |data|;
      closed := false;
    }

    /** Reads the whole file through the shared cursor and puts the cursor back. */
    method GetAll() returns (seen: Seen)
      requires Valid()
      modifies file
      ensures Valid() && file.pos == old(file.pos) && file.closed == old(file.closed)
      ensures seen == if closed then ErrStorageClosed else All(file.content)
    {
      if closed { return ErrStorageClosed; }
      var current := file.Seek(0, FromCurrent);
      if !current.At? { return current; }
      var rewound := file.Seek(0, FromStart);
      if !rewound.At? { return rewound; }
      var data: Bytes := [];
      if size > 0 {
        var chunk := file.Read(size);
        if !chunk.Data? { return chunk; }
        data := chunk.bytes;
      }
      assert data == file.content;
      var restored := file.Seek(current.pos, FromStart);
      if !restored.At? { return restored; }
      return All(data);
    }

    method Perform(op: Op) returns (seen: Seen)
      requires Valid()
      modifies this, file
      ensures Valid() && (View(), seen) == Step(FileRead, old(View()), op)
    {
      match op
      case Read(n) =>
        if closed { return ErrStorageClosed; }
        seen := file.Read(n);
      case Seek(offset, whence) =>
        if closed { return ErrStorageClosed; }
        seen := file.Seek(offset, whence);
      case GetBytes =>
        seen := GetAll();
      case Size => return SizeIs(size);
      case Close =>
        if !closed {
          closed := true;
          var _ := file.Close();
        }
        return Done;
    }

    /** A second descriptor of the same file; it outlives the storage. */
    method NewReader() returns (r: OpenFile?)
      requires Valid()
      ensures r == null <==> closed
      ensures r != null ==> fresh(r) && r.content == file.content && r.pos == 0 && !r.closed
    {
      if closed { return null; }
      r := new OpenFile(file.content);
    }
  }

  // ---- One storage over whole runs ------------------------------------------------------

  datatype Impl = Memory | Disk

  function ReadOf(impl: Impl): (Bytes, nat, nat) -> Seen {
    if impl == Memory then SliceRead else FileRead
  }

  /** The answers to a sequence of operations, and the storage after it. */
  function Answers(impl: Impl, s: Core, ops: seq<Op>): (seen: seq<Seen>)
    ensures |seen| == |ops|
    decreases |ops|
  {
    if ops == [] then []
    else var (t, one) := Step(ReadOf(impl), s, ops[0]); [one] + Answers(impl, t, ops[1..])
  }

  function Ends(impl: Impl, s: Core, ops: seq<Op>): (t: Core)
    decreases |ops|
  {
    if ops == [] then s else Ends(impl, Step(ReadOf(impl), s, ops[0]).0, ops[1..])
  }

  /** The bytes that a sequence of answers delivers. */
  function Delivered(seen: seq<Seen>): (bytes: Bytes) {
    if seen == [] then [] else (if seen[0].Data? then seen[0].bytes else []) + Delivered(seen[1..])
  }

  /** One read of an open storage, with its cursor inside the payload. */
  lemma ReadStep(impl: Impl, s: Core, n: nat)
    requires !s.closed && s.pos <= |s.data|
    ensures var (t, seen) := Step(ReadOf(impl), s, Read(n));
      var q := if s.pos + n <= |s.data| then s.pos + n else |s.data|;
      && t == s.(pos := q) && q >= s.pos
      && (n > 0 ==> if s.pos == |s.data| then seen == Eof else seen == Data(s.data[s.pos..q]))
      && (n == 0 ==> seen == Data([]) || (seen == Eof && s.pos == |s.data|))
  {
  }

  predicate NoSeekOrClose(ops: seq<Op>) {
    forall op :: op in ops ==> op.Read? || op == GetBytes || op == Size
  }

  /** Between two seeks the reads deliver consecutive bytes of the payload, from the
      cursor on, and the cursor stands behind them; an end of file is reported only
      at the end. Other queries in between change nothing. */
  lemma {:induction false} ReadsAreConsecutive(impl: Impl, s: Core, ops: seq<Op>)
    requires !s.closed && s.pos <= |s.data| && NoSeekOrClose(ops)
    ensures var t := Ends(impl, s, ops);
      && t.data == s.data && !t.closed && s.pos <= t.pos <= |s.data|
      && Delivered(Answers(impl, s, ops)) == s.data[s.pos..t.pos]
      && (Eof in Answers(impl, s, ops) ==> t.pos == |s.data|)
    decreases |ops|
  {
    if ops == [] {
    } else {
      var t, one := Step(ReadOf(impl), s, ops[0]).0, Step(ReadOf(impl), s, ops[0]).1;
      assert ops[0] in ops && forall op :: op in ops[1..] ==> op in ops;
      if ops[0].Read? {
        ReadStep(impl, s, ops[0].n);
      }
      ReadsAreConsecutive(impl, t, ops[1..]);
      var rest := Answers(impl, t, ops[1..]);
      assert ([one] + rest)[1..] == rest;
      SliceJoin(s.data, s.pos, t.pos, Ends(impl, t, ops[1..]).pos);
    }
  }

  /** Rewinding and reading until the end is reported replays the whole payload. */
  lemma RewindReplays(impl: Impl, s: Core, ops: seq<Op>)
    requires !s.closed && NoSeekOrClose(ops)
    ensures var rewound := Step(ReadOf(impl), s, Seek(0, FromStart)).0;
      Eof in Answers(impl, rewound, ops) ==> Delivered(Answers(impl, rewound, ops)) == s.data
  {
    var rewound := Step(ReadOf(impl), s, Seek(0, FromStart)).0;
    ReadsAreConsecutive(impl, rewound, ops);
    assert s.data[0..|s.data|] == s.data;
  }

  /** Where a seek lands, for each origin; a negative position is refused. */
  lemma SeekLands(impl: Impl, s: Core, offset: int)
    requires !s.closed
    ensures var (t, seen) := Step(ReadOf(impl), s, Seek(offset, FromStart));
      if offset < 0 then t == s && seen == NegativePosition else t == s.(pos := offset) && seen == At(offset)
    ensures var (t, seen) := Step(ReadOf(impl), s, Seek(offset, FromCurrent));
      if s.pos + offset < 0 then t == s && seen == NegativePosition else t == s.(pos := s.pos + offset) && seen == At(s.pos + offset)
    ensures var (t, seen) := Step(ReadOf(impl), s, Seek(offset, FromEnd));
      if |s.data| + offset < 0 then t == s && seen == NegativePosition else t == s.(pos := |s.data| + offset) && seen == At(|s.data| + offset)
  {
  }

  /** Past the end nothing is read and the cursor stays. */
  lemma PastEndReadsNothing(impl: Impl, s: Core, n: nat)
    requires !s.closed && s.pos > |s.data|
    ensures var (t, seen) := Step(ReadOf(impl), s, Read(n)); t == s && (seen == Eof || (n == 0 && seen == Data([])))
  {
  }

  lemma {:induction false} EndsSplit(impl: Impl, s: Core, first: seq<Op>, rest: seq<Op>)
    ensures Ends(impl, s, first + rest) == Ends(impl, Ends(impl, s, first), rest)
    ensures Answers(impl, s, first + rest) == Answers(impl, s, first) + Answers(impl, Ends(impl, s, first), rest)
    decreases |first|
  {
    if first == [] {
      assert first + rest == rest;
    } else {
      assert (first + rest)[1..] == first[1..] + rest;
      EndsSplit(impl, Step(ReadOf(impl), s, first[0]).0, first[1..], rest);
    }
  }

  /** What every run keeps: the payload, and a closed storage stays closed; a
      storage is closed exactly when a Close has been among its operations. */
  lemma {:induction false} RunKeeps(impl: Impl, s: Core, ops: seq<Op>)
    ensures Ends(impl, s, ops).data == s.data
    ensures Ends(impl, s, ops).closed <==> s.closed || Close in ops
    decreases |ops|
  {
    if ops == [] {
    } else {
      RunKeeps(impl, Step(ReadOf(impl), s, ops[0]).0, ops[1..]);
      assert ops == [ops[0]] + ops[1..];
    }
  }

  /** At any moment of any run: Size is the length of the payload; asking for all
      the bytes gives the payload and changes no later answer; and after a Close
      only Size and Close answer. */
  lemma AnswersAtAnyMoment(impl: Impl, s: Core, ops: seq<Op>, op: Op, later: seq<Op>)
    requires !s.closed
    ensures var now := Answers(impl, Ends(impl, s, ops), [op])[0];
      && (op == Size ==> now == SizeIs(|s.data|))
      && (op == Close ==> now == Done)
      && (op == GetBytes && Close !in ops ==> now == All(s.data))
      && (op != Size && op != Close ==> (now == ErrStorageClosed <==> Close in ops))
    ensures op == GetBytes || op == Size ==>
      Answers(impl, Ends(impl, s, ops + [op]), later) == Answers(impl, Ends(impl, s, ops), later)
  {
    RunKeeps(impl, s, ops);
    EndsSplit(impl, s, ops, [op]);
    var t := Ends(impl, s, ops);
    assert [op][1..] == [];
    assert Ends(impl, t, [op]) == Step(ReadOf(impl), t, op).0;
  }

  // ---- Comparing the two over whole runs -------------------------------------------------

  /** A storage with the independent readers made from it so far. */
  datatype Reader = Reader(pos: nat, closed: bool)
  datatype System = System(core: Core, readers: seq<Reader>)

  datatype Action = Storage(op: Op) | NewReader | ReaderRead(id: nat, n: nat) | ReaderClose(id: nat)

  /** One action on either implementation. Closing a memory reader does nothing
      (io.NopCloser); closing a disk reader closes its descriptor. */
  function Act(impl: Impl, s: System, a: Action): (r: (System, Seen)) {
    match a
    case Storage(op) => var (core, seen) := Step(ReadOf(impl), s.core, op); (s.(core := core), seen)
    case NewReader =>
      if s.core.closed then (s, ErrStorageClosed)
      else (s.(readers := s.readers + [Reader(0, false)]), ReaderMade(|s.readers|))
    case ReaderRead(id, n) =>
      if id >= |s.readers| then (s, NoSuchReader)
      else if s.readers[id].closed then (s, ErrFileClosed)
      else
        var pos := s.readers[id].pos;
        (s.(readers := s.readers[id := Reader(pos + |Chunk(s.core.data, pos, n)|, false)]), ReadOf(impl)(s.core.data, pos, n))
    case ReaderClose(id) =>
      if id >= |s.readers| then (s, NoSuchReader)
      else if impl == Memory then (s, Done)
      else if s.readers[id].closed then (s, ErrFileClosed)
      else (s.(readers := s.readers[id := s.readers[id].(closed := true)]), Done)
  }

  function Run(impl: Impl, s: System, actions: seq<Action>): (seen: seq<Seen>)
    decreases |actions|
  {
    if actions == [] then []
    else var (t, one) := Act(impl, s, actions[0]); [one] + Run(impl, t, actions[1..])
  }

  predicate Related(m: System, d: System) {
    && m.core == d.core && |m.readers| == |d.readers|
    && forall i :: 0 <= i < |d.readers| ==> !m.readers[i].closed && (!d.readers[i].closed ==> m.readers[i].pos == d.readers[i].pos)
  }

  /** The only actions on which the implementations differ: an empty buffer at or
      past the end, and a reader used again after it was closed. */
  predicate Diverges(d: System, a: Action) {
    match a
    case Storage(Read(n)) => n == 0 && !d.core.closed && d.core.pos >= |d.core.data|
    case ReaderRead(id, n) => id < |d.readers| && (d.readers[id].closed || (n == 0 && d.readers[id].pos >= |d.core.data|))
    case ReaderClose(id) => id < |d.readers| && d.readers[id].closed
    case _ => false
  }

  lemma ActAgreesIff(m: System, d: System, a: Action)
    requires Related(m, d)
    ensures Related(Act(Memory, m, a).0, Act(Disk, d, a).0)
    ensures Act(Memory, m, a).1 == Act(Disk, d, a).1 <==> !Diverges(d, a)
  {
  }

  predicate NeverDiverges(d: System, actions: seq<Action>)
    decreases |actions|
  {
    actions == [] || (!Diverges(d, actions[0]) && NeverDiverges(Act(Disk, d, actions[0]).0, actions[1..]))
  }

  /** For every payload and every sequence of actions the disk storage shows the
      caller exactly what the memory storage shows, if and only if none of the
      two kinds of action above occurs. */
  lemma {:induction false} DiskRefinesMemoryIff(m: System, d: System, actions: seq<Action>)
    requires Related(m, d)
    ensures Run(Memory, m, actions) == Run(Disk, d, actions) <==> NeverDiverges(d, actions)
    decreases |actions|
  {
    if actions == [] {
    } else {
      var (m', seenM) := Act(Memory, m, actions[0]);
      var (d', seenD) := Act(Disk, d, actions[0]);
      ActAgreesIff(m, d, actions[0]);
      DiskRefinesMemoryIff(m', d', actions[1..]);
      var restM, restD := Run(Memory, m', actions[1..]), Run(Disk, d', actions[1..]);
      assert Run(Memory, m, actions) == [seenM] + restM && Run(Disk, d, actions) == [seenD] + restD;
      assert ([seenM] + restM)[1..] == restM && ([seenD] + restD)[1..] == restD;
    }
  }

  /** The readers that have been closed along a sequence of actions are left
      alone afterwards. */
  predicate ClosedAreLeft(actions: seq<Action>, closed: set<nat>)
    decreases |actions|
  {
    actions == [] ||
    (var a := actions[0];
     && (a.ReaderRead? || a.ReaderClose? ==> a.id !in closed)
     && ClosedAreLeft(actions[1..], if a.ReaderClose? then closed + {a.id} else closed))
  }

  /** Reading through a buffer that is never empty and leaving closed readers
      alone is therefore enough. */
  lemma {:induction false} OrdinaryUseAgrees(m: System, d: System, actions: seq<Action>, closed: set<nat>)
    requires Related(m, d) && ClosedAreLeft(actions, closed)
    requires forall i :: 0 <= i < |d.readers| && d.readers[i].closed ==> i in closed
    requires forall a :: a in actions ==> (a.ReaderRead? ==> a.n > 0) && (a.Storage? && a.op.Read? ==> a.op.n > 0)
    ensures Run(Memory, m, actions) == Run(Disk, d, actions)
    decreases |actions|
  {
    if actions == [] {
    } else {
      var a := actions[0];
      assert a in actions && forall b :: b in actions[1..] ==> b in actions;
      ActAgreesIff(m, d, a);
      OrdinaryUseAgrees(Act(Memory, m, a).0, Act(Disk, d, a).0, actions[1..], if a.ReaderClose? then closed + {a.id} else closed);
    }
  }

  // ---- Readers are independent ----------------------------------------------------------

  /** What reader `id` has been given over a run. */
  function Collected(impl: Impl, s: System, actions: seq<Action>, id: nat): (bytes: Bytes)
    decreases |actions|
  {
    if actions == [] then []
    else
      var (t, seen) := Act(impl, s, actions[0]);
      (if actions[0].ReaderRead? && actions[0].id == id && seen.Data? then seen.bytes else []) + Collected(impl, t, actions[1..], id)
  }

  function Final(impl: Impl, s: System, actions: seq<Action>): (t: System)
    decreases |actions|
  {
    if actions == [] then s else Final(impl, Act(impl, s, actions[0]).0, actions[1..])
  }

  lemma ActOnReader(impl: Impl, s: System, a: Action, id: nat)
    requires id < |s.readers| && s.readers[id].pos <= |s.core.data|
    ensures var (t, seen) := Act(impl, s, a);
      && id < |t.readers| && t.core.data == s.core.data
      && s.readers[id].pos <= t.readers[id].pos <= |s.core.data|
      && s.core.data[s.readers[id].pos..t.readers[id].pos] == (if a.ReaderRead? && a.id == id && seen.Data? then seen.bytes else [])
      && (a.Storage? ==> t.readers == s.readers) && (!a.Storage? ==> t.core == s.core)
      && (a.ReaderRead? && a.id == id && a.n > 0 && !s.readers[id].closed ==>
            if s.readers[id].pos == |s.core.data| then seen == Eof
            else seen.Data? && |seen.bytes| == if a.n < |s.core.data| - s.readers[id].pos then a.n else |s.core.data| - s.readers[id].pos)
  {
  }

  /** Whatever else happens in between (reads, seeks and closing of the storage,
      other readers), a reader is given consecutive bytes of the payload, from its
      own position on; so reading to the end replays the whole payload. */
  lemma {:induction false} ReaderReplays(impl: Impl, s: System, actions: seq<Action>, id: nat)
    requires id < |s.readers| && s.readers[id].pos <= |s.core.data|
    ensures var t := Final(impl, s, actions);
      && id < |t.readers| && s.readers[id].pos <= t.readers[id].pos <= |s.core.data|
      && Collected(impl, s, actions, id) == s.core.data[s.readers[id].pos..t.readers[id].pos]
    decreases |actions|
  {
    if actions == [] {
    } else {
      var (t, seen) := Act(impl, s, actions[0]);
      ActOnReader(impl, s, actions[0], id);
      ReaderReplays(impl, t, actions[1..], id);
      var p, q, r := s.readers[id].pos, t.readers[id].pos, Final(impl, t, actions[1..]).readers[id].pos;
      SliceJoin(s.core.data, p, q, r);
    }
  }

  /** A reader made from an open storage starts at the beginning: what it is given
      in the rest of the run is a prefix of the payload, up to its position. */
  lemma NewReaderReplays(impl: Impl, s: System, actions: seq<Action>)
    requires !s.core.closed
    ensures var (t, seen) := Act(impl, s, NewReader); var id := |s.readers|;
      && seen == ReaderMade(id) && t.core == s.core
      && var end := Final(impl, t, actions);
         id < |end.readers| && end.readers[id].pos <= |s.core.data| && Collected(impl, t, actions, id) == s.core.data[..end.readers[id].pos]
  {
    var t := Act(impl, s, NewReader).0;
    ReaderReplays(impl, t, actions, |s.readers|);
  }

  lemma SliceJoin(data: Bytes, p: nat, q: nat, r: nat)
    requires p <= q <= r <= |data|
    ensures data[p..q] + data[q..r] == data[p..r]
  {
  }
}
