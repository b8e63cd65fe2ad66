/** The hand-over of `new` data between the thread that executes commands and the thread that
    unpacks the data, as a step system.

    A step is what one thread does between two points where the other may run: taking the mutex,
    one critical section together with the release at its end, one I/O operation outside it.  A
    broadcast moves a waiting thread to where it competes for the mutex again; a thread may also be
    woken for no reason.  Any I/O operation may fail, and the unpacking may end early. */
module NewData {
  import opened Basics
  import opened RangeSets
  import opened Scatter
  import opened RangeSink

  datatype Thread = Main | Receiver

  /** Working: other commands.  Issuing.. Waking: inside PerformCommandNew.  Stopping..: shutdown. */
  datatype MainPc =
    Working | Issuing | IssuingLocked | Testing | Sleeping | Waking | Stopping | StoppingLocked | Joining | Ended

  /** Fetching: unpacking.  Looking.. Clearing: inside receive_new_data.  Leaving..: after it. */
  datatype ReceiverPc =
    Fetching | Looking | Locked | Asleep | Owning | Writing | Checking | Clearing | ClearingLocked | Leaving |
    LeavingLocked | Gone

  /** The targets of the `new` commands of this run, in order, and the unpacked data. */
  datatype Config = Config(tgts: seq<seq<Range>>, stream: seq<bv8>, size: nat)

  /** The cursor of a RangeSinkWriter. */
  datatype Cursor = Cursor(next: nat, left: nat, written: nat)

  datatype State = State(
    dev: seq<bv8>,
    holder: Option<Thread>,
    writer: Option<Cursor>,
    available: bool,
    // the executing thread: `new` commands completed, and the device when the current one was issued
    main: MainPc, k: nat, issued: seq<bv8>,
    // the receiving thread: bytes written out, bytes left in the current chunk and in the current Write
    recv: ReceiverPc, pos: nat, chunk: nat, todo: nat)

  datatype Step =
    | MainWork(dev: seq<bv8>) | MainIssue | MainStop | MainLock | MainSet | MainTest | MainShut | MainJoin
    | MainSpurious
    | Chunk(n: nat) | EndOfData | Lock | Test | Spurious
    | Begin | Seek(dev: seq<bv8>) | Piece | Fail(dev: seq<bv8>) | Check | Clear | Leave

  // ---------- configuration ----------

  ghost predicate ValidConfig(c: Config) {
    forall i :: 0 <= i < |c.tgts| ==> c.tgts[i] != [] && Within(InBytes(c.tgts[i]), c.size)
  }

  function Size(c: Config, i: nat): nat
    requires i < |c.tgts|
  {
    Total(InBytes(c.tgts[i]))
  }

  /** Where in the stream the data of the i-th `new` begins. */
  function Off(c: Config, i: nat): nat
    requires i <= |c.tgts|
  {
    if i == 0 then 0 else Off(c, i - 1) + Size(c, i - 1)
  }

  function Space(c: Config, k: nat, w: Cursor): int
    requires k < |c.tgts|
  {
    Size(c, k) - w.written
  }

  predicate CursorFinished(c: Config, k: nat, w: Cursor)
    requires k < |c.tgts|
  {
    w.next == |c.tgts[k]| && w.left == 0
  }

  // ---------- steps ----------

  predicate InNew(s: State) {
    s.main.Testing? || s.main.Sleeping? || s.main.Waking?
  }

  predicate ShuttingDown(s: State) {
    s.main.Stopping? || s.main.StoppingLocked? || s.main.Joining? || s.main.Ended?
  }

  predicate Owns(s: State) {
    s.recv.Owning? || s.recv.Writing? || s.recv.Checking? || s.recv.Clearing? || s.recv.ClearingLocked?
  }

  predicate Departing(s: State) {
    s.recv.Leaving? || s.recv.LeavingLocked? || s.recv.Gone?
  }

  predicate ByReceiver(t: Step) {
    t.Chunk? || t.EndOfData? || t.Lock? || t.Test? || t.Spurious? || t.Begin? || t.Seek? || t.Piece? || t.Fail?
    || t.Check? || t.Clear? || t.Leave?
  }

  predicate Enabled(c: Config, s: State, t: Step) {
    match t
    case MainWork(dev) => s.main.Working? && |dev| == |s.dev|
    case MainIssue => s.main.Working? && s.k < |c.tgts|
    case MainStop => s.main.Working?
    case MainLock => (s.main.Issuing? || s.main.Waking? || s.main.Stopping?) && s.holder == None
    case MainSet => s.main.IssuingLocked?
    case MainTest => s.main.Testing?
    case MainShut => s.main.StoppingLocked?
    case MainJoin => s.main.Joining? && s.recv.Gone?
    case MainSpurious => s.main.Sleeping?
    case Chunk(n) => s.recv.Fetching? && 0 < n && s.pos + n <= |c.stream|
    case EndOfData => s.recv.Fetching?
    case Lock => (s.recv.Looking? || s.recv.Clearing? || s.recv.Leaving?) && s.holder == None
    case Test => s.recv.Locked?
    case Spurious => s.recv.Asleep?
    case Begin => s.recv.Owning? && s.writer.Some? && s.k < |c.tgts|
    case Seek(dev) => Opens(c, s, dev)
    case Piece => Moves(c, s)
    case Fail(dev) => s.recv.Writing? && |dev| == |s.dev|
    case Check => s.recv.Checking? && s.writer.Some? && s.k < |c.tgts|
    case Clear => s.recv.ClearingLocked?
    case Leave => s.recv.LeavingLocked?
  }

  /** SeekToOutputRange with nothing left in the current range; the next one may be discarded. */
  predicate Opens(c: Config, s: State, dev: seq<bv8>) {
    && s.recv.Writing? && s.writer.Some? && s.k < |c.tgts|
    && s.writer.value.left == 0 && s.writer.value.next < |c.tgts[s.k]| && |dev| == |s.dev|
    && var r := InBytes(c.tgts[s.k])[s.writer.value.next];
       forall p :: 0 <= p < |dev| && !(r.first <= p < r.second) ==> dev[p] == s.dev[p]
  }

  predicate Moves(c: Config, s: State) {
    && s.recv.Writing? && s.writer.Some? && s.k < |c.tgts| && s.writer.value.left > 0
    && 0 < s.writer.value.next <= |c.tgts[s.k]|
    && var end := InBytes(c.tgts[s.k])[s.writer.value.next - 1].second;
       s.writer.value.left <= end <= |s.dev| && s.pos + s.todo <= |c.stream| && 0 < s.todo <= s.chunk
  }

  /** The effect of a broadcast on each of the two threads. */
  function WakeMain(m: MainPc): MainPc {
    if m.Sleeping? then Waking else m
  }

  function WakeReceiver(r: ReceiverPc): ReceiverPc {
    if r.Asleep? then Looking else r
  }

  function Apply(c: Config, s: State, t: Step): State
    requires Enabled(c, s, t)
  {
    match t
    case MainWork(dev) => s.(dev := dev)
    case MainIssue => s.(main := Issuing)
    case MainStop => s.(main := Stopping)
    case MainLock => s.(holder := Some(Main), main := if s.main.Issuing? then IssuingLocked
      else if s.main.Waking? then Testing else StoppingLocked)
    case MainSet => s.(writer := Some(Cursor(0, 0, 0)), issued := s.dev, main := Testing, recv := WakeReceiver(s.recv))
    case MainTest =>
      if s.writer == None then s.(holder := None, main := Working, k := s.k + 1)
      else if !s.available then s.(holder := None, main := Stopping)
      else s.(holder := None, main := Sleeping)
    case MainShut => s.(holder := None, available := false, main := Joining, recv := WakeReceiver(s.recv))
    case MainJoin => s.(main := Ended)
    case MainSpurious => s.(main := Waking)
    case Chunk(n) => s.(recv := Looking, chunk := n)
    case EndOfData => s.(recv := Leaving)
    case Lock => s.(holder := Some(Receiver), recv := if s.recv.Looking? then Locked
      else if s.recv.Clearing? then ClearingLocked else LeavingLocked)
    case Test =>
      if s.writer.Some? then s.(holder := None, recv := Owning)
      else if !s.available then s.(holder := None, recv := Leaving)
      else s.(holder := None, recv := Asleep)
    case Spurious => s.(recv := Looking)
    case Begin =>
      var n := Min(s.chunk, Space(c, s.k, s.writer.value));
      s.(recv := if n > 0 then Writing else Checking, todo := if n > 0 then n else 0)
    case Seek(dev) =>
      var w := s.writer.value;
      s.(dev := dev, writer := Some(Cursor(w.next + 1, Length(InBytes(c.tgts[s.k])[w.next]), w.written)))
    case Piece =>
      var w := s.writer.value;
      var n := if w.left < s.todo then w.left else s.todo;
      var end := InBytes(c.tgts[s.k])[w.next - 1].second;
      s.(dev := Overwrite(s.dev, end - w.left, c.stream[s.pos..s.pos + n]),
         writer := Some(Cursor(w.next, w.left - n, w.written + n)),
         pos := s.pos + n, chunk := s.chunk - n, todo := s.todo - n,
         recv := if s.todo == n then Checking else Writing)
    case Fail(dev) => s.(dev := dev, recv := Leaving)
    case Check =>
      s.(recv := if CursorFinished(c, s.k, s.writer.value) then Clearing else if s.chunk > 0 then Looking else Fetching)
    case Clear =>
      s.(holder := None, writer := None, main := WakeMain(s.main), recv := if s.chunk > 0 then Looking else Fetching)
    case Leave => s.(holder := None, available := false, main := if s.writer.Some? then WakeMain(s.main) else s.main,
      recv := Gone)
  }

  predicate Init(c: Config, s: State) {
    && |s.dev| == c.size && s.holder == None && s.writer == None && s.available
    && s.main == Working && s.k == 0 && s.recv == Fetching && s.pos == 0 && s.chunk == 0 && s.todo == 0
  }

  // ---------- the invariant ----------

  ghost predicate MutexHeld(s: State) {
    && (s.holder == Some(Main) <==> s.main.IssuingLocked? || s.main.Testing? || s.main.StoppingLocked?)
    && (s.holder == Some(Receiver) <==> s.recv.Locked? || s.recv.ClearingLocked? || s.recv.LeavingLocked?)
  }

  /** A thread that waits still has a reason to, and so will be woken when the reason goes. */
  ghost predicate NoLostWakeup(s: State) {
    && (s.main.Sleeping? ==> s.writer.Some? && s.available)
    && (s.recv.Asleep? ==> s.writer == None && s.available)
  }

  ghost predicate Protocol(c: Config, s: State) {
    && s.k <= |c.tgts|
    && (s.main.Issuing? || s.main.IssuingLocked? || InNew(s) || s.writer.Some? ==> s.k < |c.tgts|)
    && (s.writer.Some? ==> InNew(s) || (ShuttingDown(s) && s.recv.Gone?))
    && (Owns(s) ==> s.writer.Some? && s.available && InNew(s))
    && (s.available ==> !s.recv.Gone?)
    && (!s.available ==> s.recv.Gone? || s.main.Joining? || s.main.Ended?)
    && (s.main.Joining? || s.main.Ended? ==> !s.available)
    && (s.main.Ended? ==> s.recv.Gone?)
  }

  function StreamSlice(c: Config, from: nat, to: nat): seq<bv8> {
    if from <= to <= |c.stream| then c.stream[from..to] else []
  }

  /** Where the receiver is in the stream and in the targets. */
  ghost predicate Position(c: Config, s: State)
    requires s.k <= |c.tgts|
  {
    && s.pos + s.chunk <= |c.stream|
    && (s.recv.Fetching? ==> s.chunk == 0)
    && (s.recv.Looking? || s.recv.Locked? || s.recv.Asleep? || s.recv.Owning? || s.recv.Writing? ==> s.chunk > 0)
    && (s.writer.Some? && s.k < |c.tgts| ==> AtCursor(c, s, s.writer.value))
    && (s.writer == None && InNew(s) && s.k < |c.tgts| ==> s.pos == Off(c, s.k + 1))
    && (s.writer == None && !InNew(s) ==> s.pos == Off(c, s.k))
  }

  ghost predicate AtCursor(c: Config, s: State, w: Cursor)
    requires s.k < |c.tgts|
  {
    && Off(c, s.k) + w.written == s.pos && w.written <= Size(c, s.k)
    && Streamed(s.issued, s.dev, InBytes(c.tgts[s.k]), w.next, w.left, StreamSlice(c, Off(c, s.k), s.pos))
    && (s.recv.Writing? ==> 0 < s.todo <= s.chunk && s.todo <= Space(c, s.k, w))
    && (s.recv.Clearing? || s.recv.ClearingLocked? ==> CursorFinished(c, s.k, w))
    && (!Owns(s) || s.recv.Owning? ==> !CursorFinished(c, s.k, w))
  }

  /** The current `new` is complete: its targets hold its slice, and nothing else has changed. */
  ghost predicate Delivered(c: Config, s: State)
    requires s.k < |c.tgts|
  {
    var cells := Expand(InBytes(c.tgts[s.k]));
    && |cells| == Size(c, s.k) && InBounds(cells, |s.issued|) && Off(c, s.k + 1) <= |c.stream|
    && s.dev == Put(s.issued, cells, c.stream[Off(c, s.k)..Off(c, s.k + 1)])
  }

  ghost predicate Inv(c: Config, s: State) {
    && |s.dev| == c.size && MutexHeld(s) && NoLostWakeup(s) && Protocol(c, s)
    && (!Departing(s) ==> Position(c, s))
    && (InNew(s) && s.writer == None ==> Delivered(c, s))
  }

  lemma InitInv(c: Config, s: State)
    requires ValidConfig(c) && Init(c, s)
    ensures Inv(c, s)
  {
  }

  // ---------- control ----------

  ghost predicate Control(c: Config, s: State) {
    MutexHeld(s) && NoLostWakeup(s) && Protocol(c, s)
  }

  lemma MainKeepsControl(c: Config, s: State, t: Step)
    requires Control(c, s) && Enabled(c, s, t) && !ByReceiver(t)
    ensures Control(c, Apply(c, s, t))
  {
    hide Overwrite, InBytes;
  }

  lemma ReceiverKeepsControl(c: Config, s: State, t: Step)
    requires Control(c, s) && Enabled(c, s, t) && ByReceiver(t)
    ensures Control(c, Apply(c, s, t))
  {
    hide Overwrite, InBytes;
  }

  // ---------- data ----------

  ghost predicate Data(c: Config, s: State) {
    && |s.dev| == c.size && s.k <= |c.tgts|
    && (!Departing(s) ==> Position(c, s))
    && (InNew(s) && s.writer == None && s.k < |c.tgts| ==> Delivered(c, s))
  }

  lemma SliceGrows(c: Config, from: nat, at: nat, to: nat)
    requires from <= at <= to <= |c.stream|
    ensures StreamSlice(c, from, at) + c.stream[at..to] == StreamSlice(c, from, to)
  {
  }

  lemma TargetsWithin(c: Config, k: nat)
    requires ValidConfig(c) && k < |c.tgts|
    ensures c.tgts[k] != [] && Within(InBytes(c.tgts[k]), c.size) && 0 < Size(c, k)
  {
    var bs := InBytes(c.tgts[k]);
    assert bs[0].first < bs[0].second;
  }

  lemma SetStarts(c: Config, s: State)
    requires ValidConfig(c) && Control(c, s) && Data(c, s) && s.main.IssuingLocked?
    ensures Data(c, Apply(c, s, MainSet))
  {
    hide Streamed, ValidConfig;
    TargetsWithin(c, s.k);
    StreamedStarts(s.dev, InBytes(c.tgts[s.k]));
    if !Departing(s) { assert StreamSlice(c, Off(c, s.k), s.pos) == []; }
  }

  /** A cursor in the stream: how far it may still go. */
  lemma CursorAccount(c: Config, s: State)
    requires ValidConfig(c) && s.k < |c.tgts| && s.writer.Some? && AtCursor(c, s, s.writer.value)
    requires s.pos <= |c.stream|
    ensures var w, bs := s.writer.value, InBytes(c.tgts[s.k]);
            && w.next <= |bs| && w.written + w.left == Before(bs, w.next)
            && (CursorFinished(c, s.k, w) <==> w.written == Size(c, s.k))
            && (w.left == 0 && w.next < |bs| ==> w.written < Size(c, s.k))
            && (w.left > 0 ==> w.left <= Space(c, s.k, w))
  {
    hide Put, Overwrite, InBytes;
    var w, bs := s.writer.value, InBytes(c.tgts[s.k]);
    TargetsWithin(c, s.k);
    BeforeAll(bs);
    BeforeGrows(bs, w.next, |bs|);
  }

  lemma SeekKeeps(c: Config, s: State, dev: seq<bv8>)
    requires ValidConfig(c) && Control(c, s) && Data(c, s) && Enabled(c, s, Seek(dev))
    ensures Data(c, Apply(c, s, Seek(dev)))
  {
    hide Streamed, InBytes, ValidConfig, Before;
    CursorAccount(c, s);
    StreamedSeek(s.issued, s.dev, dev, InBytes(c.tgts[s.k]), s.writer.value.next, StreamSlice(c, Off(c, s.k), s.pos));
    TargetsWithin(c, s.k);
    LengthPositive(c, s.k, s.writer.value.next);
  }

  lemma LengthPositive(c: Config, k: nat, i: nat)
    requires ValidConfig(c) && k < |c.tgts| && i < |c.tgts[k]|
    ensures 0 < Length(InBytes(c.tgts[k])[i])
  {
  }

  lemma PieceKeeps(c: Config, s: State)
    requires ValidConfig(c) && Control(c, s) && Data(c, s) && Enabled(c, s, Piece)
    ensures Data(c, Apply(c, s, Piece)) && Apply(c, s, Piece).pos > s.pos
  {
    hide Streamed, InBytes, ValidConfig, Before, Overwrite;
    CursorAccount(c, s);
    var w, from := s.writer.value, Off(c, s.k);
    var n := if w.left < s.todo then w.left else s.todo;
    StreamedWrite(s.issued, s.dev, InBytes(c.tgts[s.k]), w.next, w.left, StreamSlice(c, from, s.pos),
      c.stream[s.pos..s.pos + n]);
    SliceGrows(c, from, s.pos, s.pos + n);
  }

  lemma ClearDelivers(c: Config, s: State)
    requires ValidConfig(c) && Control(c, s) && Data(c, s) && s.recv.ClearingLocked?
    ensures Data(c, Apply(c, s, Clear))
  {
    hide InBytes, ValidConfig, Put, Before;
    var w, bs := s.writer.value, InBytes(c.tgts[s.k]);
    CursorAccount(c, s);
    StreamedAll(s.issued, s.dev, bs, StreamSlice(c, Off(c, s.k), s.pos));
  }

  lemma DeliveredFrame(c: Config, s: State, s': State)
    requires s.k < |c.tgts| && s'.k == s.k && s'.dev == s.dev && s'.issued == s.issued && Delivered(c, s)
    ensures Delivered(c, s')
  {
  }

  lemma OtherMainKeeps(c: Config, s: State, t: Step)
    requires ValidConfig(c) && Control(c, s) && Data(c, s) && Enabled(c, s, t) && !ByReceiver(t) && !t.MainSet?
    ensures Data(c, Apply(c, s, t))
  {
    hide InBytes, ValidConfig, Streamed, Overwrite, Delivered;
    var s' := Apply(c, s, t);
    if InNew(s') && s'.writer == None { DeliveredFrame(c, s, s'); }
  }

  lemma OtherReceiverKeeps(c: Config, s: State, t: Step)
    requires ValidConfig(c) && Control(c, s) && Data(c, s) && Enabled(c, s, t) && ByReceiver(t)
    requires !t.Seek? && !t.Piece? && !t.Clear?
    ensures Data(c, Apply(c, s, t))
  {
    hide InBytes, ValidConfig, Streamed, Overwrite, Before;
    if Owns(s) && !t.Fail? { CursorAccount(c, s); }
  }

  /** Every step of either thread keeps the invariant. */
  lemma StepKeepsInv(c: Config, s: State, t: Step)
    requires ValidConfig(c) && Inv(c, s) && Enabled(c, s, t)
    ensures Inv(c, Apply(c, s, t))
  {
    hide Position, Delivered, Owns, Overwrite, InBytes, ValidConfig, MutexHeld, NoLostWakeup, Apply, Enabled;
    if ByReceiver(t) {
      ReceiverKeepsControl(c, s, t);
    } else {
      MainKeepsControl(c, s, t);
    }
    match t
    case MainSet => SetFacts(c, s); SetStarts(c, s);
    case Seek(dev) => SeekKeeps(c, s, dev);
    case Piece => PieceKeeps(c, s);
    case Clear => ClearFacts(c, s); ClearDelivers(c, s);
    case _ => if ByReceiver(t) { OtherReceiverKeeps(c, s, t); } else { OtherMainKeeps(c, s, t); }
  }

  lemma SetFacts(c: Config, s: State)
    ensures Enabled(c, s, MainSet) <==> s.main.IssuingLocked?
  {
  }

  lemma ClearFacts(c: Config, s: State)
    ensures Enabled(c, s, Clear) <==> s.recv.ClearingLocked?
  {
  }

  // ---------- the properties ----------

  /** When `new` number k returns success, the device is the one it was issued on with exactly the
      k-th slice of the stream in its targets. */
  lemma NewGetsItsSlice(c: Config, s: State)
    requires ValidConfig(c) && Inv(c, s) && Enabled(c, s, MainTest) && Apply(c, s, MainTest).main == Working
    ensures Apply(c, s, MainTest).k == s.k + 1 && s.k < |c.tgts| && Delivered(c, s)
            && Apply(c, s, MainTest).dev == s.dev
  {
    hide Delivered;
  }

  /** The cursor is only moved by the receiver, and only while the executing thread waits for it; the
      executing thread reads it, to report an error, only after the receiver has gone. */
  lemma OnlyReceiverMovesCursor(c: Config, s: State, t: Step)
    requires ValidConfig(c) && Inv(c, s) && Enabled(c, s, t)
    ensures s.writer.Some? && Apply(c, s, t).writer != s.writer ==> ByReceiver(t) && s.available && InNew(s)
    ensures !ByReceiver(t) ==> !Owns(s) || Apply(c, s, t).writer == s.writer
    ensures t.MainTest? && Apply(c, s, t).main == Stopping ==> s.recv.Gone?
  {
    hide Delivered, Position, InBytes, Overwrite;
  }

  predicate Final(s: State) {
    s.main.Ended? && s.recv.Gone?
  }

  /** Steps that are neither other commands nor needless wake-ups. */
  predicate IsProgress(t: Step) {
    !t.MainWork? && !t.MainSpurious? && !t.Spurious?
  }

  /** No deadlock: until both threads have ended one of them can go on, without a needless wake-up
      and without a failure. */
  lemma SomeoneCanMove(c: Config, s: State) returns (t: Step)
    requires ValidConfig(c) && Inv(c, s) && !Final(s)
    ensures IsProgress(t) && Enabled(c, s, t) && !t.Fail? && (t.EndOfData? ==> s.pos == |c.stream|)
    ensures t.MainStop? ==> s.k == |c.tgts|
  {
    hide Delivered, Overwrite, InBytes, ValidConfig;
    if s.recv.Writing? { WriterCanMove(c, s); }
    if s.holder.Some? { assert s.holder == Some(if s.holder.value.Main? then Main else Receiver); }
    t := match s.recv
      case Fetching => if s.pos < |c.stream| then Chunk(|c.stream| - s.pos) else EndOfData
      case Looking => if s.holder == None then Lock else MainMove(c, s)
      case Clearing => if s.holder == None then Lock else MainMove(c, s)
      case Leaving => if s.holder == None then Lock else MainMove(c, s)
      case Locked => Test
      case Owning => Begin
      case Writing => if s.writer.Some? && s.writer.value.left == 0 then Seek(s.dev) else Piece
      case Checking => Check
      case ClearingLocked => Clear
      case LeavingLocked => Leave
      case Asleep => MainMove(c, s)
      case Gone => MainMove(c, s);
  }

  lemma WriterCanMove(c: Config, s: State)
    requires ValidConfig(c) && Inv(c, s) && s.recv.Writing?
    ensures s.writer.Some? && (s.writer.value.left == 0 ==> Enabled(c, s, Seek(s.dev)))
    ensures s.writer.value.left > 0 ==> Enabled(c, s, Piece)
  {
    hide Delivered, Overwrite, InBytes, ValidConfig, Put;
    CursorAccount(c, s);
    TargetsWithin(c, s.k);
    if s.writer.value.left > 0 { CursorInBytes(c, s.k, s.writer.value); }
  }

  lemma CursorInBytes(c: Config, k: nat, w: Cursor)
    requires ValidConfig(c) && k < |c.tgts| && 0 < w.next <= |c.tgts[k]|
             && w.left <= Length(InBytes(c.tgts[k])[w.next - 1])
    ensures w.left <= InBytes(c.tgts[k])[w.next - 1].second <= c.size
  {
  }

  /** What the executing thread does next when it is not blocked. */
  function MainMove(c: Config, s: State): Step {
    match s.main
    case Working => if s.k < |c.tgts| then MainIssue else MainStop
    case Issuing => MainLock
    case IssuingLocked => MainSet
    case Testing => MainTest
    case Sleeping => MainSpurious
    case Waking => MainLock
    case Stopping => MainLock
    case StoppingLocked => MainShut
    case Joining => MainJoin
    case Ended => MainStop
  }

  // ---------- termination ----------

  /** Hand-overs still to come, counted in halves. */
  function Handovers(c: Config, s: State): int {
    if ShuttingDown(s) then 0
    else 2 * (|c.tgts| - s.k) - (if InNew(s) then if s.writer.Some? then 1 else 2 else 0)
  }

  function Rank(s: State): nat {
    MainRank(s.main) + ReceiverRank(s)
  }

  function MainRank(m: MainPc): nat {
    match m
    case Ended => 0
    case Joining => 1
    case StoppingLocked => 2
    case Stopping => 3
    case Sleeping => 4
    case IssuingLocked => 5
    case Issuing => 6
    case Working => 7
    case Testing => 8
    case Waking => 9
  }

  function ReceiverRank(s: State): nat {
    match s.recv
    case Gone => 0
    case LeavingLocked => 1
    case Leaving => 2
    case Asleep => 3
    case Writing => if s.writer.Some? && s.writer.value.left > 0 then 4 else 5
    case Owning => 6
    case Locked => 7
    case Looking => 8
    case Fetching => 9
    case ClearingLocked => 10
    case Clearing => 11
    case Checking => 12
  }

  /** Every step but other commands and needless wake-ups goes down in this order. */
  ghost predicate Descends(c: Config, s: State, s': State) {
    var a, a' := if s.available then 1 else 0, if s'.available then 1 else 0;
    || a' < a
    || (a' == a && 0 <= Handovers(c, s') < Handovers(c, s))
    || (a' == a && Handovers(c, s') == Handovers(c, s) && Unread(c, s') < Unread(c, s))
    || (a' == a && Handovers(c, s') == Handovers(c, s) && Unread(c, s') == Unread(c, s) && Rank(s') < Rank(s))
  }

  function Unread(c: Config, s: State): nat {
    if s.pos <= |c.stream| then |c.stream| - s.pos else 0
  }

  lemma MainDescends(c: Config, s: State, t: Step)
    requires Control(c, s) && Enabled(c, s, t) && IsProgress(t) && !ByReceiver(t)
    ensures Descends(c, s, Apply(c, s, t))
  {
    hide Overwrite, InBytes;
  }

  lemma ReceiverDescends(c: Config, s: State, t: Step)
    requires Control(c, s) && Enabled(c, s, t) && IsProgress(t) && ByReceiver(t)
    requires t.Begin? ==> 0 < s.chunk && 0 < Space(c, s.k, s.writer.value)
    requires t.Seek? ==> 0 < Length(InBytes(c.tgts[s.k])[s.writer.value.next])
    ensures Descends(c, s, Apply(c, s, t))
  {
    hide Overwrite, InBytes;
  }

  lemma StepDescends(c: Config, s: State, t: Step)
    requires ValidConfig(c) && Inv(c, s) && Enabled(c, s, t) && IsProgress(t)
    ensures Descends(c, s, Apply(c, s, t))
  {
    hide Delivered, Overwrite, InBytes, ValidConfig, Apply, Descends, Streamed, MutexHeld, NoLostWakeup;
    if !ByReceiver(t) {
      MainDescends(c, s, t);
    } else {
      if t.Begin? { CursorAccount(c, s); }
      if t.Seek? { LengthPositive(c, s.k, s.writer.value.next); }
      ReceiverDescends(c, s, t);
    }
  }

  // ---------- runs ----------

  /** Until both threads have ended, a thread that can go on does so; which one may depend on anything. */
  ghost predicate Progresses(c: Config, states: nat -> State, steps: nat -> Step) {
    forall i: nat {:trigger steps(i)} :: !Final(states(i)) ==>
      Enabled(c, states(i), steps(i)) && IsProgress(steps(i)) && states(i + 1) == Apply(c, states(i), steps(i))
  }

  /** However the threads are scheduled and whatever fails, both end: neither waits forever. */
  lemma {:induction false} BothEnd(c: Config, states: nat -> State, steps: nat -> Step, i: nat) returns (n: nat)
    requires ValidConfig(c) && Inv(c, states(i)) && Progresses(c, states, steps)
    ensures n >= i && Final(states(n))
    decreases states(i).available, Positive(Handovers(c, states(i))), Unread(c, states(i)), Rank(states(i))
  {
    if Final(states(i)) { return i; }
    assert Enabled(c, states(i), steps(i));
    StepKeepsInv(c, states(i), steps(i));
    StepDescends(c, states(i), steps(i));
    n := BothEnd(c, states, steps, i + 1);
  }

  function Positive(n: int): nat {
    if n < 0 then 0 else n
  }

  /** A run: states linked by enabled steps. */
  ghost predicate IsRun(c: Config, run: seq<State>, steps: seq<Step>) {
    && |run| == |steps| + 1 && Init(c, run[0])
    && forall i :: 0 <= i < |steps| ==> Enabled(c, run[i], steps[i]) && run[i + 1] == Apply(c, run[i], steps[i])
  }

  lemma {:induction false} RunKeepsInv(c: Config, run: seq<State>, steps: seq<Step>, i: nat)
    requires ValidConfig(c) && IsRun(c, run, steps) && i < |run|
    ensures Inv(c, run[i])
  {
    if i == 0 {
      InitInv(c, run[0]);
    } else {
      RunKeepsInv(c, run, steps, i - 1);
      StepKeepsInv(c, run[i - 1], steps[i - 1]);
    }
  }

  /** In every run, each `new` that returns success has put exactly its slice in its targets. */
  lemma RunDelivers(c: Config, run: seq<State>, steps: seq<Step>, i: nat)
    requires ValidConfig(c) && IsRun(c, run, steps) && i < |steps|
    requires steps[i].MainTest? && run[i + 1].main == Working
    ensures run[i].k < |c.tgts| && run[i + 1].k == run[i].k + 1 && Delivered(c, run[i]) && run[i + 1].dev == run[i].dev
    ensures |Expand(InBytes(c.tgts[run[i].k]))| == Total(c.tgts[run[i].k]) * BLOCK_SIZE
  {
    RunKeepsInv(c, run, steps, i);
    NewGetsItsSlice(c, run[i]);
    InBytesTotal(c.tgts[run[i].k]);
    ExpandLength(InBytes(c.tgts[run[i].k]));
  }
}
