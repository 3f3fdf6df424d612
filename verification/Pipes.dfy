/** Pipes (kernel/fs/pipe.c) between processes that park and wake on the scheduler's queue. */
module Pipes {
  import opened Bytes
  import opened Ring
  import opened Scheduler

  const PIPE_BUF_SIZE := 4096

  datatype Pipe = Pipe(buffer: seq<byte>, readPos: nat, writePos: nat, count: nat, readers: nat, writers: nat,
                       blockedReader: int, blockedWriter: int)

  /** pipe_create. */
  const EMPTY_PIPE := Pipe(Zeros(PIPE_BUF_SIZE), 0, 0, 0, 1, 1, -1, -1)

  /** What a process is in the middle of. */
  datatype Doing = User | Reading(i: nat, n: nat) | Writing(i: nat, data: seq<byte>)

  /** The bytes in the pipe. */
  function Inside(p: Pipe): seq<byte> { Held(p.buffer, p.readPos, p.count) }

  ghost predicate BufferOk(p: Pipe) { |p.buffer| == PIPE_BUF_SIZE && RingOk(p.buffer, p.readPos, p.writePos, p.count) }

  /**
   * A reader waits only on an empty pipe that may still be written, a writer only on a full
   * pipe that may still be read.
   */
  predicate WaitOk(p: Pipe) {
    && (p.blockedReader >= 0 ==> p.count == 0 && 0 < p.writers)
    && (p.blockedWriter >= 0 ==> p.count == PIPE_BUF_SIZE && 0 < p.readers)
  }

  ghost predicate PipeOk(p: Pipe) { BufferOk(p) && WaitOk(p) && -1 <= p.blockedReader && -1 <= p.blockedWriter }

  /** Reader and writer are never parked on the same pipe. */
  lemma NeverBothParked(p: Pipe)
    requires WaitOk(p)
    ensures !(p.blockedReader >= 0 && p.blockedWriter >= 0)
  {
  }

  /** The copy loop of pipe_read. */
  method CopyOut(p: Pipe, n: nat) returns (buf: seq<byte>, p': Pipe)
    requires BufferOk(p) && n <= p.count
    ensures BufferOk(p') && |buf| == n && Inside(p) == buf + Inside(p')
    ensures p' == p.(readPos := p'.readPos, count := p.count - n)
  {
    hide Held, RingOk;
    RingBounds(p.buffer, p.readPos, p.writePos, p.count);
    buf := [];
    var r: nat := p.readPos;
    for k := 0 to n
      invariant |buf| == k && r < PIPE_BUF_SIZE && RingOk(p.buffer, r, p.writePos, p.count - k)
      invariant Inside(p) == buf + Held(p.buffer, r, p.count - k)
    {
      Ring.Popped(p.buffer, r, p.writePos, p.count - k);
      WrapIsMod(r + 1, PIPE_BUF_SIZE);
      buf := buf + [p.buffer[r]];
      r := (r + 1) % PIPE_BUF_SIZE;
    }
    p' := p.(readPos := r, count := p.count - n);
  }

  /** The copy loop of pipe_write. */
  method CopyIn(p: Pipe, data: seq<byte>, n: nat) returns (p': Pipe)
    requires BufferOk(p) && n <= |data| && n <= PIPE_BUF_SIZE - p.count
    ensures BufferOk(p') && Inside(p') == Inside(p) + data[..n]
    ensures p' == p.(buffer := p'.buffer, writePos := p'.writePos, count := p.count + n)
  {
    hide Held, RingOk;
    RingBounds(p.buffer, p.readPos, p.writePos, p.count);
    var b: seq<byte>, w: nat := p.buffer, p.writePos;
    for k := 0 to n
      invariant |b| == PIPE_BUF_SIZE && w < PIPE_BUF_SIZE && RingOk(b, p.readPos, w, p.count + k)
      invariant Held(b, p.readPos, p.count + k) == Inside(p) + data[..k]
    {
      Pushed(b, p.readPos, w, p.count + k, data[k]);
      WrapIsMod(w + 1, PIPE_BUF_SIZE);
      assert data[..k] + [data[k]] == data[..k + 1];
      b := b[w := data[k]];
      w := (w + 1) % PIPE_BUF_SIZE;
    }
    p' := p.(buffer := b, writePos := w, count := p.count + n);
  }

  /** Exactly those processes are blocked that wait on a pipe, and for what they wait. */
  ghost predicate ParkingOk(state: seq<PState>, doing: seq<Doing>, pipes: seq<Pipe>, readerOf: seq<nat>,
                            writerOf: seq<nat>, idle: nat) {
    && |doing| == |state| && |readerOf| == |writerOf| == |pipes|
    && (forall i :: 0 <= i < |pipes| ==>
          readerOf[i] < |state| && writerOf[i] < |state| && readerOf[i] != idle && writerOf[i] != idle)
    && (forall i :: 0 <= i < |pipes| && pipes[i].blockedReader >= 0 ==>
          pipes[i].blockedReader == readerOf[i] && state[readerOf[i]] == Blocked && doing[readerOf[i]].Reading?
          && doing[readerOf[i]].i == i)
    && (forall i :: 0 <= i < |pipes| && pipes[i].blockedWriter >= 0 ==>
          pipes[i].blockedWriter == writerOf[i] && state[writerOf[i]] == Blocked && doing[writerOf[i]].Writing?
          && doing[writerOf[i]].i == i)
    && (forall x: nat :: x < |doing| ==> DoingOk(doing[x], x, readerOf, writerOf))
    && (forall x: nat :: x < |state| && state[x] == Blocked ==> Waits(doing[x], x, pipes))
  }

  /** A process reads and writes only its own ends. */
  predicate DoingOk(d: Doing, x: nat, readerOf: seq<nat>, writerOf: seq<nat>) {
    && (d.Reading? ==> d.i < |readerOf| && readerOf[d.i] == x)
    && (d.Writing? ==> d.i < |writerOf| && writerOf[d.i] == x)
  }

  /** The pipe a blocked process is in the middle of knows it is waiting. */
  predicate Waits(d: Doing, x: nat, pipes: seq<Pipe>) {
    match d
    case User => false
    case Reading(i, _) => i < |pipes| && pipes[i].blockedReader == x
    case Writing(i, _) => i < |pipes| && pipes[i].blockedWriter == x
  }

  ghost predicate PipesOk(pipes: seq<Pipe>) { forall i :: 0 <= i < |pipes| ==> PipeOk(pipes[i]) }

  // ----- the reference machine: pipes are byte strings, the run queue is a list -----

  /** A pipe as its users see it. */
  datatype Tube = Tube(bytes: seq<byte>, readers: nat, writers: nat, reader: int, writer: int)

  /** All pipes, what each process is doing, who is ready in which order, and who runs. */
  datatype World = World(tubes: seq<Tube>, doing: seq<Doing>, queue: seq<nat>, current: nat)

  /** Which process holds which end, and which is idle. */
  datatype Roles = Roles(readerOf: seq<nat>, writerOf: seq<nat>, idle: nat)

  /** What the running process asks for next, or the timer. */
  datatype Event =
    | Tick
    | Read(i: nat, n: nat)
    | Write(i: nat, data: seq<byte>)
    | CloseReader(i: nat)
    | CloseWriter(i: nat)
    | Dup(i: nat, reader: bool)

  /** What a call returned: bytes to a reader, bytes taken from a writer, a broken pipe, or nothing yet. */
  datatype Outcome = Nothing | Got(i: nat, bytes: seq<byte>) | Put(i: nat, bytes: seq<byte>) | Broken(i: nat)

  datatype Turnout = Turnout(world: World, outcome: Outcome)

  function TubeOf(p: Pipe): Tube { Tube(Inside(p), p.readers, p.writers, p.blockedReader, p.blockedWriter) }

  function TubesOf(pipes: seq<Pipe>): seq<Tube> { seq(|pipes|, i requires 0 <= i < |pipes| => TubeOf(pipes[i])) }

  lemma TubesSet(pipes: seq<Pipe>, i: nat, q: Pipe)
    requires i < |pipes|
    ensures TubesOf(pipes[i := q]) == TubesOf(pipes)[i := TubeOf(q)] && TubesOf(pipes)[i] == TubeOf(pipes[i])
  {
  }

  function Queued(queue: seq<nat>, who: int): seq<nat> { if who >= 0 then queue + [who] else queue }

  function At(w: World, i: nat): Tube { if i < |w.tubes| then w.tubes[i] else Tube([], 0, 0, -1, -1) }

  function WithTube(w: World, i: nat, t: Tube): World { if i < |w.tubes| then w.(tubes := w.tubes[i := t]) else w }

  function WithDoing(w: World, d: Doing): World {
    if w.current < |w.doing| then w.(doing := w.doing[w.current := d]) else w
  }

  /** The head of the queue runs; whoever ran goes to its end, unless it sleeps. */
  function Switch(w: World, sleeps: bool): World {
    if w.queue == [] then w
    else w.(queue := w.queue[1..] + (if sleeps then [] else [w.current]), current := w.queue[0])
  }

  /** pipe_read by the running process: bytes from the front, the end if nobody writes, or sleep. */
  function ReadOn(w: World, i: nat, n: nat): Turnout {
    var t := At(w, i);
    if t.bytes == [] && t.writers != 0 then Turnout(Switch(WithTube(w, i, t.(reader := w.current)), true), Nothing)
    else
      var k := if n < |t.bytes| then n else |t.bytes|;
      var writer := if t.bytes == [] then -1 else t.writer;
      var t' := t.(bytes := t.bytes[k..], writer := if t.bytes == [] then t.writer else -1);
      Turnout(WithDoing(WithTube(w, i, t').(queue := Queued(w.queue, writer)), User), Got(i, t.bytes[..k]))
  }

  /** pipe_write past its first test: bytes to the back, failure if nobody reads a full pipe, or sleep. */
  function WriteOn(w: World, i: nat, data: seq<byte>): Turnout {
    var t := At(w, i);
    if |t.bytes| >= PIPE_BUF_SIZE then
      if t.readers == 0 then Turnout(WithDoing(w, User), Broken(i))
      else Turnout(Switch(WithTube(w, i, t.(writer := w.current)), true), Nothing)
    else
      var k := if |data| < PIPE_BUF_SIZE - |t.bytes| then |data| else PIPE_BUF_SIZE - |t.bytes|;
      var t' := t.(bytes := t.bytes + data[..k], reader := -1);
      Turnout(WithDoing(WithTube(w, i, t').(queue := Queued(w.queue, t.reader)), User), Put(i, data[..k]))
  }

  function CloseReadOn(w: World, i: nat): World {
    var t := At(w, i);
    var t' := if t.readers > 0 then t.(readers := t.readers - 1) else t;
    if t'.readers == 0 then WithTube(w, i, t'.(writer := -1)).(queue := Queued(w.queue, t.writer))
    else WithTube(w, i, t')
  }

  function CloseWriteOn(w: World, i: nat): World {
    var t := At(w, i);
    var t' := if t.writers > 0 then t.(writers := t.writers - 1) else t;
    if t'.writers == 0 then WithTube(w, i, t'.(reader := -1)).(queue := Queued(w.queue, t.reader))
    else WithTube(w, i, t')
  }

  function DupOn(w: World, i: nat, reader: bool): World {
    var t := At(w, i);
    WithTube(w, i, if reader then t.(readers := t.readers + 1) else t.(writers := t.writers + 1))
  }

  /**
   * One step: a process inside a call goes on with it, whatever it would ask for next; the idle
   * process asks for nothing.
   */
  function Next(w: World, e: Event, roles: Roles): Turnout {
    var x := w.current;
    if e.Tick? then Turnout(Switch(w, false), Nothing)
    else if x < |w.doing| && w.doing[x].Reading? then ReadOn(w, w.doing[x].i, w.doing[x].n)
    else if x < |w.doing| && w.doing[x].Writing? then WriteOn(w, w.doing[x].i, w.doing[x].data)
    else if x == roles.idle || e.i >= |w.tubes| || |roles.readerOf| != |w.tubes| || |roles.writerOf| != |w.tubes| then
        Turnout(w, Nothing)
    else
      match e
      case Read(i, n) => if roles.readerOf[i] == x then ReadOn(WithDoing(w, Reading(i, n)), i, n)
        else Turnout(w, Nothing)
      case Write(i, data) =>
        if roles.writerOf[i] != x then Turnout(w, Nothing)
        else if At(w, i).readers == 0 then Turnout(w, Broken(i))
        else WriteOn(WithDoing(w, Writing(i, data)), i, data)
      case CloseReader(i) => Turnout(CloseReadOn(w, i), Nothing)
      case CloseWriter(i) => Turnout(CloseWriteOn(w, i), Nothing)
      case Dup(i, reader) => Turnout(DupOn(w, i, reader), Nothing)
  }

  function WorldAfter(w: World, events: seq<Event>, roles: Roles): World {
    if events == [] then w else Next(WorldAfter(w, events[..|events| - 1], roles), events[|events| - 1], roles).world
  }

  // ----- what a write and a read come to -----

  /** As much of `data` as 4096 bytes leave room for went to the back. */
  predicate PutIn4096(t: Tube, data: seq<byte>, o: Outcome, i: nat, t': Tube) {
    && o.Put? && o.i == i && o.bytes <= data && t'.bytes == t.bytes + o.bytes
    && |o.bytes| == if |t.bytes| + |data| <= 4096 then |data| else 4096 - |t.bytes|
  }

  /** Up to `n` bytes were taken from the front. */
  predicate TakenOut(t: Tube, n: nat, o: Outcome, i: nat, t': Tube) {
    && o.Got? && o.i == i && t.bytes == o.bytes + t'.bytes
    && |o.bytes| == if n <= |t.bytes| then n else |t.bytes|
  }

  /** The running process is writing `data` to pipe `i`: it asks for it now, or was parked in the middle of it. */
  predicate Writes(w: World, e: Event, roles: Roles, i: nat, data: seq<byte>) {
    && !e.Tick? && w.current < |w.doing| && i < |w.tubes|
    && (w.doing[w.current] == Writing(i, data)
        || (&& w.doing[w.current] == User && e == Write(i, data) && w.current != roles.idle && w.tubes[i].readers > 0
            && |roles.readerOf| == |roles.writerOf| == |w.tubes| && roles.writerOf[i] == w.current))
  }

  predicate Reads(w: World, e: Event, roles: Roles, i: nat, n: nat) {
    && !e.Tick? && w.current < |w.doing| && i < |w.tubes|
    && (w.doing[w.current] == Reading(i, n)
        || (&& w.doing[w.current] == User && e == Read(i, n) && w.current != roles.idle
            && |roles.readerOf| == |roles.writerOf| == |w.tubes| && roles.readerOf[i] == w.current))
  }

  /** The pipe's bytes stay, the process waits at one end of it, and the head of the queue runs. */
  predicate Sleeps(w: World, n: Turnout, i: nat, reader: bool) {
    && i < |w.tubes| == |n.world.tubes| && n.outcome == Nothing && n.world.tubes[i].bytes == w.tubes[i].bytes
    && (if reader then n.world.tubes[i].reader else n.world.tubes[i].writer) == w.current
    && (w.queue != [] ==> n.world.current == w.queue[0] && n.world.queue == w.queue[1..])
  }

  /** The call returns: the process is back in user mode and runs on, and whoever waited is last in the queue. */
  predicate Returns(w: World, n: Turnout, who: int) {
    && n.world.current == w.current && w.current < |n.world.doing| && n.world.doing[w.current] == User
    && n.world.queue == if who >= 0 then w.queue + [who] else w.queue
  }

  /** A write: into a pipe with room, into a full one that may be read, into a full one nobody reads. */
  lemma WriteLaw(w: World, e: Event, roles: Roles, i: nat, data: seq<byte>)
    requires Writes(w, e, roles, i, data)
    ensures var t, n := w.tubes[i], Next(w, e, roles);
            && i < |n.world.tubes| && (forall j :: 0 <= j < |w.tubes| && j != i ==> At(n.world, j) == w.tubes[j])
            && if |t.bytes| < 4096 then
                 && PutIn4096(t, data, n.outcome, i, n.world.tubes[i]) && Returns(w, n, t.reader)
                 && n.world.tubes[i].reader == -1
               else if t.readers > 0 then Sleeps(w, n, i, false)
               else n.outcome == Broken(i) && Returns(w, n, -1) && n.world.tubes == w.tubes
  {
  }

  /** A read: of a pipe with bytes, of an empty one that may be written, of an empty one nobody writes. */
  lemma ReadLaw(w: World, e: Event, roles: Roles, i: nat, n: nat)
    requires Reads(w, e, roles, i, n)
    ensures var t, r := w.tubes[i], Next(w, e, roles);
            && i < |r.world.tubes| && (forall j :: 0 <= j < |w.tubes| && j != i ==> At(r.world, j) == w.tubes[j])
            && if t.bytes != [] then
                 && TakenOut(t, n, r.outcome, i, r.world.tubes[i]) && Returns(w, r, t.writer)
                 && r.world.tubes[i].writer == -1
               else if t.writers > 0 then Sleeps(w, r, i, true)
               else r.outcome == Got(i, []) && Returns(w, r, -1) && r.world.tubes == w.tubes
  {
  }

  /** The outcome moves bytes of pipe `i`. */
  predicate MovesBytes(o: Outcome, i: nat) { (o.Got? || o.Put?) && o.i == i }

  function OutcomeAt(w: World, events: seq<Event>, roles: Roles, k: nat): Outcome
    requires k < |events|
  {
    Next(WorldAfter(w, events[..k], roles), events[k], roles).outcome
  }

  lemma {:induction false} BytesStay(w: World, events: seq<Event>, roles: Roles, i: nat, a: nat, b: nat)
    requires a <= b <= |events| && forall k :: a <= k < b ==> !MovesBytes(OutcomeAt(w, events, roles, k), i)
    ensures At(WorldAfter(w, events[..b], roles), i).bytes == At(WorldAfter(w, events[..a], roles), i).bytes
    ensures |WorldAfter(w, events[..b], roles).tubes| == |WorldAfter(w, events[..a], roles).tubes|
    decreases b
  {
    hide Next;
    if a < b {
      BytesStay(w, events, roles, i, a, b - 1);
      assert events[..b][..b - 1] == events[..b - 1];
      NextMoves(WorldAfter(w, events[..b - 1], roles), events[b - 1], roles, i);
      assert !MovesBytes(OutcomeAt(w, events, roles, b - 1), i);
      var w1, w2 := WorldAfter(w, events[..b - 1], roles), WorldAfter(w, events[..b], roles);
      if i < |w1.tubes| {
        assert w1.tubes[i].bytes + [] == w1.tubes[i].bytes && [] + w2.tubes[i].bytes == w2.tubes[i].bytes;
      }
    }
  }

  /**
   * What is written to an empty pipe, if it fits, is what the next reader gets who asks for as
   * much, whatever else happens in between.
   */
  lemma WriteThenRead(w: World, events: seq<Event>, roles: Roles, i: nat, data: seq<byte>, n: nat, a: nat, b: nat)
    requires a < b < |events| && 0 < |data| <= 4096 && |data| <= n
    requires Writes(WorldAfter(w, events[..a], roles), events[a], roles, i, data)
      && WorldAfter(w, events[..a], roles).tubes[i].bytes == []
    requires forall k :: a < k < b ==> !MovesBytes(OutcomeAt(w, events, roles, k), i)
    requires Reads(WorldAfter(w, events[..b], roles), events[b], roles, i, n)
    ensures OutcomeAt(w, events, roles, a) == Put(i, data) && OutcomeAt(w, events, roles, b) == Got(i, data)
  {
    hide Next, Writes, Reads;
    WritesAll(WorldAfter(w, events[..a], roles), events[a], roles, i, data);
    assert events[..a + 1][..a] == events[..a];
    BytesStay(w, events, roles, i, a + 1, b);
    assert At(WorldAfter(w, events[..b], roles), i).bytes == data;
    ReadsAll(WorldAfter(w, events[..b], roles), events[b], roles, i, n);
  }

  lemma WritesAll(w: World, e: Event, roles: Roles, i: nat, data: seq<byte>)
    requires Writes(w, e, roles, i, data) && w.tubes[i].bytes == [] && 0 < |data| <= 4096
    ensures var n := Next(w, e, roles); n.outcome == Put(i, data) && At(n.world, i).bytes == data
  {
    WriteLaw(w, e, roles, i, data);
    hide Next, Writes, Returns;
    assert [] + data == data;
  }

  lemma ReadsAll(w: World, e: Event, roles: Roles, i: nat, n: nat)
    requires Reads(w, e, roles, i, n) && 0 < |At(w, i).bytes| <= n
    ensures Next(w, e, roles).outcome == Got(i, At(w, i).bytes)
  {
    ReadLaw(w, e, roles, i, n);
    hide Next, Reads, Returns;
  }

  // ----- what each step does to the parking, on values -----

  /** Changes the pipe's contents or counts, but not who waits. */
  lemma PipeChanged(state: seq<PState>, doing: seq<Doing>, pipes: seq<Pipe>, readerOf: seq<nat>, writerOf: seq<nat>,
                    idle: nat, i: nat, p: Pipe)
    requires ParkingOk(state, doing, pipes, readerOf, writerOf, idle) && i < |pipes|
    requires p.blockedReader == pipes[i].blockedReader && p.blockedWriter == pipes[i].blockedWriter
    ensures ParkingOk(state, doing, pipes[i := p], readerOf, writerOf, idle)
  {
    forall x: nat | x < |state| && state[x] == Blocked ensures Waits(doing[x], x, pipes[i := p]) {
      assert Waits(doing[x], x, pipes);
    }
  }

  /** A process that is not blocked turns to something else. */
  lemma DoingChanged(state: seq<PState>, doing: seq<Doing>, pipes: seq<Pipe>, readerOf: seq<nat>, writerOf: seq<nat>,
                     idle: nat, x: nat, d: Doing)
    requires ParkingOk(state, doing, pipes, readerOf, writerOf, idle) && x < |state| && state[x] != Blocked
      && DoingOk(d, x, readerOf, writerOf)
    ensures ParkingOk(state, doing[x := d], pipes, readerOf, writerOf, idle)
  {
    hide DoingOk, Waits;
  }

  /** States change, but not who is parked. */
  lemma StatesChanged(state: seq<PState>, state': seq<PState>, doing: seq<Doing>, pipes: seq<Pipe>, readerOf: seq<nat>,
                      writerOf: seq<nat>, idle: nat)
    requires ParkingOk(state, doing, pipes, readerOf, writerOf, idle) && SameBlocked(state, state')
    ensures ParkingOk(state', doing, pipes, readerOf, writerOf, idle)
  {
    hide DoingOk, Waits;
  }

  /** The reader of pipe `i` parks. */
  lemma ReaderParks(state: seq<PState>, doing: seq<Doing>, pipes: seq<Pipe>, readerOf: seq<nat>, writerOf: seq<nat>,
                    idle: nat, i: nat, x: nat)
    requires ParkingOk(state, doing, pipes, readerOf, writerOf, idle) && i < |pipes| && x < |state|
      && state[x] != Blocked
    requires doing[x].Reading? && doing[x].i == i
    ensures ParkingOk(state[x := Blocked], doing, pipes[i := pipes[i].(blockedReader := x)], readerOf, writerOf, idle)
  {
    var state', pipes' := state[x := Blocked], pipes[i := pipes[i].(blockedReader := x)];
    assert DoingOk(doing[x], x, readerOf, writerOf);
    forall y: nat | y < |state'| && state'[y] == Blocked ensures Waits(doing[y], y, pipes') {
      if y != x {
        assert Waits(doing[y], y, pipes) && DoingOk(doing[y], y, readerOf, writerOf);
      }
    }
  }

  /** The writer of pipe `i` parks. */
  lemma WriterParks(state: seq<PState>, doing: seq<Doing>, pipes: seq<Pipe>, readerOf: seq<nat>, writerOf: seq<nat>,
                    idle: nat, i: nat, x: nat)
    requires ParkingOk(state, doing, pipes, readerOf, writerOf, idle) && i < |pipes| && x < |state|
      && state[x] != Blocked
    requires doing[x].Writing? && doing[x].i == i
    ensures ParkingOk(state[x := Blocked], doing, pipes[i := pipes[i].(blockedWriter := x)], readerOf, writerOf, idle)
  {
    var state', pipes' := state[x := Blocked], pipes[i := pipes[i].(blockedWriter := x)];
    assert DoingOk(doing[x], x, readerOf, writerOf);
    forall y: nat | y < |state'| && state'[y] == Blocked ensures Waits(doing[y], y, pipes') {
      if y != x {
        assert Waits(doing[y], y, pipes) && DoingOk(doing[y], y, readerOf, writerOf);
      }
    }
  }

  /** Whoever waits on one end of pipe `i` is woken. */
  lemma Woken(state: seq<PState>, doing: seq<Doing>, pipes: seq<Pipe>, readerOf: seq<nat>, writerOf: seq<nat>,
              idle: nat, i: nat, x: nat, p: Pipe)
    requires ParkingOk(state, doing, pipes, readerOf, writerOf, idle) && i < |pipes| && x < |state|
    requires (pipes[i].blockedReader == x && p == pipes[i].(blockedReader := -1))
      || (pipes[i].blockedWriter == x && p == pipes[i].(blockedWriter := -1))
    requires pipes[i].blockedReader != pipes[i].blockedWriter
    ensures ParkingOk(state[x := Ready], doing, pipes[i := p], readerOf, writerOf, idle)
  {
    var state', pipes' := state[x := Ready], pipes[i := p];
    forall y: nat | y < |state'| && state'[y] == Blocked ensures Waits(doing[y], y, pipes') {
      assert Waits(doing[y], y, pipes) && DoingOk(doing[y], y, readerOf, writerOf);
    }
    forall j | 0 <= j < |pipes'| && pipes'[j].blockedReader >= 0 ensures pipes'[j].blockedReader != x {
    }
    forall j | 0 <= j < |pipes'| && pipes'[j].blockedWriter >= 0 ensures pipes'[j].blockedWriter != x {
    }
  }

  class System {
    const sched: Scheduler
    var pipes: seq<Pipe>
    var doing: seq<Doing>
    const readerOf: seq<nat>
    const writerOf: seq<nat>
    /** All but that the running process may be about to park. */
    ghost predicate Sound()
      reads this, sched
    {
      && sched.Valid() && ParkingOk(sched.state, doing, pipes, readerOf, writerOf, sched.idle) && PipesOk(pipes)
    }

    ghost predicate Valid()
      reads this, sched
    {
      Sound() && sched.Settled() && (sched.current == sched.idle ==> doing[sched.idle] == User)
    }

    /** What the users see. */
    ghost function Now(): World
      reads this, sched
    {
      World(TubesOf(pipes), doing, sched.queue, sched.current)
    }

    ghost function Parts(): Roles { Roles(readerOf, writerOf, sched.idle) }

    /** Every process but the idle one is ready; every pipe is empty and has one end open on each side. */
    constructor (n: nat, idle: nat, readerOf: seq<nat>, writerOf: seq<nat>)
      requires idle < n && |readerOf| == |writerOf|
      requires forall i :: 0 <= i < |readerOf| ==>
        readerOf[i] < n && writerOf[i] < n && readerOf[i] != idle && writerOf[i] != idle
      ensures Valid() && fresh(sched) && sched.idle == idle && |sched.state| == n && this.readerOf == readerOf
        && this.writerOf == writerOf
      ensures |pipes| == |readerOf| && forall i :: 0 <= i < |pipes| ==> pipes[i] == EMPTY_PIPE
    {
      var s := new Scheduler(n, idle);
      for p := 0 to n
        invariant fresh(s) && s.Settled() && s.idle == idle == s.current && |s.state| == n
        invariant forall q: nat :: q < n ==> (q in s.queue <==> q < p && q != idle)
        invariant forall q: nat :: q < n && (q < p || q == idle) ==> s.state[q] != Blocked
      {
        hide Scheduler.Valid, Scheduler.Settled;
        if p != idle {
          s.Wake(p);
        }
      }
      sched := s;
      this.readerOf, this.writerOf := readerOf, writerOf;
      pipes := seq(|readerOf|, i => EMPTY_PIPE);
      doing := seq(n, i => User);
      new;
      hide Scheduler.Valid, ParkingOk, PipesOk;
      Begins(sched.state, doing, pipes, readerOf, writerOf, idle);
    }

    /** Stores pipe `i` back and wakes the process that waited on it, if any. */
    method Update(i: nat, q: Pipe, wake: int)
      requires Valid() && i < |pipes| && Released(pipes[i], q, wake) && PipesOk(pipes[i := q])
      modifies this, sched
      ensures Valid() && Now() == WithTube(old(Now()), i, TubeOf(q)).(queue := Queued(old(sched.queue), wake))
      ensures pipes == old(pipes)[i := q] && sched.current == old(sched.current) && doing == old(doing)
    {
      hide Scheduler.Valid, ParkingOk, PipesOk;
      TubesSet(pipes, i, q);
      if wake >= 0 {
        ParkedIs(sched.state, doing, pipes, readerOf, writerOf, sched.idle, i);
        NotQueued(sched, wake);
        ghost var p := if wake == pipes[i].blockedWriter then pipes[i].(blockedWriter := -1)
          else pipes[i].(blockedReader := -1);
        Woken(sched.state, doing, pipes, readerOf, writerOf, sched.idle, i, wake, p);
        PipeChanged(sched.state[wake := Ready], doing, pipes[i := p], readerOf, writerOf, sched.idle, i, q);
        assert pipes[i := p][i := q] == pipes[i := q];
        sched.Wake(wake);
      } else {
        PipeChanged(sched.state, doing, pipes, readerOf, writerOf, sched.idle, i, q);
      }
      pipes := pipes[i := q];
    }

    /** The running process blocks on pipe `i` and another one runs. */
    method Park(i: nat, reader: bool)
      requires Valid() && i < |pipes| && AtEnd(doing, sched.current, i, reader) && sched.current != sched.idle
        && WaitOk(Waited(pipes[i], sched.current, reader))
      modifies this, sched
      ensures Valid() && sched.current != old(sched.current)
      ensures Now() == Switch(WithTube(old(Now()), i, TubeOf(Waited(old(pipes)[i], old(sched.current), reader))), true)
    {
      hide Scheduler.Valid, ParkingOk, PipesOk, WaitOk;
      var x := sched.current;
      RunningIs(sched);
      IdleQueued(sched);
      if reader {
        ReaderParks(sched.state, doing, pipes, readerOf, writerOf, sched.idle, i, x);
      } else {
        WriterParks(sched.state, doing, pipes, readerOf, writerOf, sched.idle, i, x);
      }
      PipeWaits(pipes, i, x, reader);
      TubesSet(pipes, i, Waited(pipes[i], x, reader));
      sched.Block();
      pipes := pipes[i := Waited(pipes[i], x, reader)];
      ghost var st := sched.state;
      sched.Schedule();
      StatesChanged(st, sched.state, doing, pipes, readerOf, writerOf, sched.idle);
      IdleFree(sched.state, doing, pipes, readerOf, writerOf, sched.idle);
      assert sched.queue == old(sched.queue)[1..] + [];
    }

    /** The running process begins an operation, or goes back to user mode. */
    method Turn(d: Doing)
      requires Valid() && (sched.current == sched.idle ==> d == User) && DoingOk(d, sched.current, readerOf, writerOf)
      modifies `doing
      ensures Valid() && Now() == WithDoing(old(Now()), d)
    {
      hide Scheduler.Valid, ParkingOk, PipesOk;
      RunningIs(sched);
      DoingChanged(sched.state, doing, pipes, readerOf, writerOf, sched.idle, sched.current, d);
      ParkingShape(sched.state, doing, pipes, readerOf, writerOf, sched.idle);
      doing := doing[sched.current := d];
    }

    /** One turn of the loop of pipe_read by the process that is in it: it gets bytes or the end, or parks. */
    method ReadTurn() returns (o: Outcome)
      requires Valid() && InRead(doing, sched.current)
      modifies this, sched
      ensures Valid()
        && Turnout(Now(), o) == ReadOn(old(Now()), old(doing)[old(sched.current)].i, old(doing)[old(sched.current)].n)
      ensures var i, n := old(doing)[old(sched.current)].i, old(doing)[old(sched.current)].n;
              i < |old(pipes)| == |pipes| && (old(pipes)[i].count > 0 ==>
                TakenOut(TubeOf(old(pipes)[i]), n, o, i, TubeOf(pipes[i])))
    {
      hide Scheduler.Valid, ParkingOk, PipesOk, Held;
      var x := sched.current;
      ParkingShape(sched.state, doing, pipes, readerOf, writerOf, sched.idle);
      EndOf(sched.state, doing, pipes, readerOf, writerOf, sched.idle, x);
      var i, n := doing[x].i, doing[x].n;
      PipeAt(pipes, i);
      var p := pipes[i];
      TubesSet(pipes, i, p);
      if p.count == 0 {
        if p.writers == 0 {
          Turn(User);
          assert WithTube(old(Now()), i, TubeOf(p)) == old(Now());
          return Got(i, []);
        }
        Park(i, true);
        return Nothing;
      }
      var k := if n < p.count then n else p.count;
      var buf, p' := CopyOut(p, k);
      var q := p'.(blockedWriter := -1);
      TookOut(pipes, i, q);
      assert Inside(p)[..k] == buf && Inside(p)[k..] == Inside(q);
      Update(i, q, p.blockedWriter);
      Turn(User);
      o := Got(i, buf);
    }

    /** pipe_write gives up at once when nobody can read. */
    method WriteStart(i: nat, data: seq<byte>) returns (broken: bool)
      requires Valid() && i < |pipes| && writerOf[i] == sched.current
      modifies `doing
      ensures Valid() && broken == (pipes[i].readers == 0)
      ensures Now() == if broken then old(Now()) else WithDoing(old(Now()), Writing(i, data))
    {
      hide Scheduler.Valid, ParkingOk, PipesOk;
      ParkingShape(sched.state, doing, pipes, readerOf, writerOf, sched.idle);
      RunningIs(sched);
      broken := pipes[i].readers == 0;
      if !broken {
        EndIsNotIdle(sched.state, doing, pipes, readerOf, writerOf, sched.idle, i);
        Turn(Writing(i, data));
      }
    }

    /** One turn of the loop of pipe_write: bytes go in, or the pipe is broken, or the writer parks. */
    method WriteTurn() returns (o: Outcome)
      requires Valid() && InWrite(doing, sched.current)
      modifies this, sched
      ensures Valid()
      ensures Turnout(Now(), o) ==
        WriteOn(old(Now()), old(doing)[old(sched.current)].i, old(doing)[old(sched.current)].data)
      ensures var i, data := old(doing)[old(sched.current)].i, old(doing)[old(sched.current)].data;
              i < |old(pipes)| == |pipes| && (old(pipes)[i].count < 4096 ==>
                PutIn4096(TubeOf(old(pipes)[i]), data, o, i, TubeOf(pipes[i])))
    {
      hide Scheduler.Valid, ParkingOk, PipesOk, Held;
      var x := sched.current;
      ParkingShape(sched.state, doing, pipes, readerOf, writerOf, sched.idle);
      EndOf(sched.state, doing, pipes, readerOf, writerOf, sched.idle, x);
      var i, data := doing[x].i, doing[x].data;
      PipeAt(pipes, i);
      var p := pipes[i];
      TubesSet(pipes, i, p);
      if p.count == PIPE_BUF_SIZE {
        if p.readers == 0 {
          Turn(User);
          return Broken(i);
        }
        Park(i, false);
        return Nothing;
      }
      var space := PIPE_BUF_SIZE - p.count;
      var k := if |data| < space then |data| else space;
      var p' := CopyIn(p, data, k);
      var q := p'.(blockedReader := -1);
      PutIn(pipes, i, q);
      Update(i, q, p.blockedReader);
      Turn(User);
      o := Put(i, data[..k]);
    }

    /** pipe_close_read: the last reader to go wakes the writer. */
    method CloseRead(i: nat)
      requires Valid() && i < |pipes|
      modifies this, sched
      ensures Valid() && Now() == CloseReadOn(old(Now()), i)
    {
      hide Scheduler.Valid, ParkingOk, PipesOk;
      PipeAt(pipes, i);
      TubesSet(pipes, i, pipes[i]);
      var p := pipes[i];
      if p.readers > 0 {
        p := p.(readers := p.readers - 1);
      }
      var wake := -1;
      if p.readers == 0 && p.blockedWriter >= 0 {
        wake := p.blockedWriter;
        p := p.(blockedWriter := -1);
      }
      EndsChanged(pipes, i, p);
      Update(i, p, wake);
    }

    /** pipe_close_write: the last writer to go wakes the reader. */
    method CloseWrite(i: nat)
      requires Valid() && i < |pipes|
      modifies this, sched
      ensures Valid() && Now() == CloseWriteOn(old(Now()), i)
    {
      hide Scheduler.Valid, ParkingOk, PipesOk;
      PipeAt(pipes, i);
      TubesSet(pipes, i, pipes[i]);
      var p := pipes[i];
      if p.writers > 0 {
        p := p.(writers := p.writers - 1);
      }
      var wake := -1;
      if p.writers == 0 && p.blockedReader >= 0 {
        wake := p.blockedReader;
        p := p.(blockedReader := -1);
      }
      EndsChanged(pipes, i, p);
      Update(i, p, wake);
    }

    /** pipe_inc_ref. */
    method IncRef(i: nat, reader: bool)
      requires Valid() && i < |pipes|
      modifies this, sched
      ensures Valid() && Now() == DupOn(old(Now()), i, reader)
    {
      hide Scheduler.Valid, ParkingOk, PipesOk;
      PipeAt(pipes, i);
      TubesSet(pipes, i, pipes[i]);
      var p := if reader then pipes[i].(readers := pipes[i].readers + 1)
        else pipes[i].(writers := pipes[i].writers + 1);
      EndsChanged(pipes, i, p);
      Update(i, p, -1);
    }

    /** The timer interrupt: the running process goes to the back of the queue. */
    method Tick()
      requires Valid()
      modifies sched
      ensures Valid() && Now() == Switch(old(Now()), false)
    {
      hide Scheduler.Valid, ParkingOk, PipesOk;
      RunningIs(sched);
      ghost var st := sched.state;
      sched.Schedule();
      StatesChanged(st, sched.state, doing, pipes, readerOf, writerOf, sched.idle);
      IdleFree(sched.state, doing, pipes, readerOf, writerOf, sched.idle);
    }
  }

  /** The process is at this end of pipe `i`. */
  predicate AtEnd(doing: seq<Doing>, x: nat, i: nat, reader: bool) {
    && x < |doing|
    && ((reader && doing[x].Reading? && doing[x].i == i) || (!reader && doing[x].Writing? && doing[x].i == i))
  }

  predicate InRead(doing: seq<Doing>, x: nat) { x < |doing| && doing[x].Reading? }

  predicate InWrite(doing: seq<Doing>, x: nat) { x < |doing| && doing[x].Writing? }

  function Waited(p: Pipe, x: nat, reader: bool): Pipe {
    if reader then p.(blockedReader := x) else p.(blockedWriter := x)
  }

  /** `q` is the pipe with the process `wake`, if it is one, no longer waiting. */
  predicate Released(p: Pipe, q: Pipe, wake: int) {
    && (wake < 0 ==> q.blockedReader == p.blockedReader && q.blockedWriter == p.blockedWriter)
    && (wake >= 0 ==>
        || (wake == p.blockedWriter && q.blockedWriter == -1 && q.blockedReader == p.blockedReader)
        || (wake == p.blockedReader && q.blockedReader == -1 && q.blockedWriter == p.blockedWriter))
  }

  /** While another process runs the idle one is in the queue. */
  lemma IdleQueued(s: Scheduler)
    requires s.Settled() && s.current != s.idle
    ensures s.queue != []
  {
  }

  lemma RunningIs(s: Scheduler)
    requires s.Settled()
    ensures s.current < |s.state| && s.state[s.current] == Running && s.idle < |s.state|
  {
  }

  lemma ParkingShape(state: seq<PState>, doing: seq<Doing>, pipes: seq<Pipe>, readerOf: seq<nat>, writerOf: seq<nat>,
                     idle: nat)
    requires ParkingOk(state, doing, pipes, readerOf, writerOf, idle)
    ensures |doing| == |state| && |readerOf| == |writerOf| == |pipes|
  {
  }

  /** A process that is in an operation is at an end of an existing pipe, and is not the idle process. */
  lemma EndOf(state: seq<PState>, doing: seq<Doing>, pipes: seq<Pipe>, readerOf: seq<nat>, writerOf: seq<nat>,
              idle: nat, x: nat)
    requires ParkingOk(state, doing, pipes, readerOf, writerOf, idle) && x < |doing| && doing[x] != User
    ensures doing[x].i < |pipes| && x != idle
  {
    assert DoingOk(doing[x], x, readerOf, writerOf);
  }

  lemma EndIsNotIdle(state: seq<PState>, doing: seq<Doing>, pipes: seq<Pipe>, readerOf: seq<nat>, writerOf: seq<nat>,
                     idle: nat, i: nat)
    requires ParkingOk(state, doing, pipes, readerOf, writerOf, idle) && i < |pipes|
    ensures readerOf[i] != idle && writerOf[i] != idle
  {
  }

  /** The idle process is never in an operation. */
  lemma IdleFree(state: seq<PState>, doing: seq<Doing>, pipes: seq<Pipe>, readerOf: seq<nat>, writerOf: seq<nat>,
                 idle: nat)
    requires ParkingOk(state, doing, pipes, readerOf, writerOf, idle) && idle < |state|
    ensures doing[idle] == User
  {
    if doing[idle] != User {
      EndOf(state, doing, pipes, readerOf, writerOf, idle, idle);
    }
  }

  lemma PipeAt(pipes: seq<Pipe>, i: nat)
    requires PipesOk(pipes) && i < |pipes|
    ensures PipeOk(pipes[i]) && BufferOk(pipes[i]) && pipes[i].count <= PIPE_BUF_SIZE
      && |Inside(pipes[i])| == pipes[i].count
    ensures WaitOk(pipes[i]) && -1 <= pipes[i].blockedReader && -1 <= pipes[i].blockedWriter
  {
    assert PipeOk(pipes[i]);
  }

  lemma PipeWaits(pipes: seq<Pipe>, i: nat, x: nat, reader: bool)
    requires PipesOk(pipes) && i < |pipes| && WaitOk(Waited(pipes[i], x, reader))
    ensures PipesOk(pipes[i := Waited(pipes[i], x, reader)])
  {
    hide RingOk;
    assert PipeOk(pipes[i]);
  }

  /** Bytes read: nobody need wait to write any more. */
  lemma TookOut(pipes: seq<Pipe>, i: nat, q: Pipe)
    requires PipesOk(pipes) && i < |pipes| && 0 < pipes[i].count && BufferOk(q)
    requires q == pipes[i].(readPos := q.readPos, count := q.count, blockedWriter := -1)
    ensures PipesOk(pipes[i := q])
  {
    hide RingOk;
    assert PipeOk(pipes[i]);
    assert PipeOk(q);
  }

  /** Bytes written: nobody need wait to read any more. */
  lemma PutIn(pipes: seq<Pipe>, i: nat, q: Pipe)
    requires PipesOk(pipes) && i < |pipes| && pipes[i].count < PIPE_BUF_SIZE && BufferOk(q)
    requires q == pipes[i].(buffer := q.buffer, writePos := q.writePos, count := q.count, blockedReader := -1)
    ensures PipesOk(pipes[i := q])
  {
    hide RingOk;
    assert PipeOk(pipes[i]);
    assert PipeOk(q);
  }

  /** Ends opened or closed. */
  lemma EndsChanged(pipes: seq<Pipe>, i: nat, q: Pipe)
    requires PipesOk(pipes) && i < |pipes|
    requires q == pipes[i].(readers := q.readers, writers := q.writers, blockedReader := q.blockedReader,
                            blockedWriter := q.blockedWriter)
    requires WaitOk(q) && -1 <= q.blockedReader && -1 <= q.blockedWriter
    ensures PipesOk(pipes[i := q])
  {
    hide RingOk;
    assert PipeOk(pipes[i]);
    assert PipeOk(q);
  }

  /** Nobody waits on empty pipes. */
  lemma Begins(state: seq<PState>, doing: seq<Doing>, pipes: seq<Pipe>, readerOf: seq<nat>, writerOf: seq<nat>,
               idle: nat)
    requires |doing| == |state| && |readerOf| == |writerOf| == |pipes|
    requires forall i :: 0 <= i < |pipes| ==>
      readerOf[i] < |state| && writerOf[i] < |state| && readerOf[i] != idle && writerOf[i] != idle
    requires forall i :: 0 <= i < |pipes| ==> pipes[i] == EMPTY_PIPE
    requires (forall x :: 0 <= x < |doing| ==> doing[x] == User) && forall x :: 0 <= x < |state| ==> state[x] != Blocked
    ensures ParkingOk(state, doing, pipes, readerOf, writerOf, idle) && PipesOk(pipes)
  {
    assert PipeOk(EMPTY_PIPE);
  }

  /** Who waits on a pipe is blocked, and is not the running process. */
  lemma ParkedIs(state: seq<PState>, doing: seq<Doing>, pipes: seq<Pipe>, readerOf: seq<nat>, writerOf: seq<nat>,
                 idle: nat, i: nat)
    requires ParkingOk(state, doing, pipes, readerOf, writerOf, idle) && PipesOk(pipes) && i < |pipes|
    ensures pipes[i].blockedReader >= 0 ==>
      pipes[i].blockedReader < |state| && state[pipes[i].blockedReader] == Blocked && pipes[i].blockedWriter < 0
    ensures pipes[i].blockedWriter >= 0 ==>
      pipes[i].blockedWriter < |state| && state[pipes[i].blockedWriter] == Blocked && pipes[i].blockedReader < 0
  {
    assert PipeOk(pipes[i]);
  }

  lemma NotQueued(s: Scheduler, x: nat)
    requires s.Settled() && x < |s.state| && s.state[x] == Blocked
    ensures x != s.current && x !in s.queue
  {
  }

  // ----- runs -----

  /** One step is one step of the reference machine. */
  method Step(s: System, e: Event) returns (o: Outcome)
    requires s.Valid()
    modifies s, s.sched
    ensures s.Valid() && Turnout(s.Now(), o) == Next(old(s.Now()), e, s.Parts())
  {
    hide Scheduler.Valid, ParkingOk, PipesOk, ReadOn, WriteOn, CloseReadOn, CloseWriteOn, Switch;
    RunningIs(s.sched);
    ParkingShape(s.sched.state, s.doing, s.pipes, s.readerOf, s.writerOf, s.sched.idle);
    var x := s.sched.current;
    o := Nothing;
    if e.Tick? {
      s.Tick();
    } else if s.doing[x].Reading? {
      o := s.ReadTurn();
    } else if s.doing[x].Writing? {
      o := s.WriteTurn();
    } else if x != s.sched.idle && e.i < |s.pipes| {
      match e
      case Read(i, n) =>
        if s.readerOf[i] == x {
          s.Turn(Reading(i, n));
          o := s.ReadTurn();
        }
      case Write(i, data) =>
        if s.writerOf[i] == x {
          TubesSet(s.pipes, i, s.pipes[i]);
          var broken := s.WriteStart(i, data);
          if broken {
            o := Broken(i);
          } else {
            o := s.WriteTurn();
          }
        }
      case CloseReader(i) => s.CloseRead(i);
      case CloseWriter(i) => s.CloseWrite(i);
      case Dup(i, reader) => s.IncRef(i, reader);
    }
  }

  /** The promises of pipes and scheduler, as they hold between any two steps. */
  ghost predicate Promises(s: System)
    reads s, s.sched
  {
    && s.sched.current < |s.sched.state|
    && (forall i :: 0 <= i < |s.pipes| ==>
          WaitOk(s.pipes[i]) && (s.pipes[i].blockedReader < 0 || s.pipes[i].blockedWriter < 0))
    && (forall x: nat :: x < |s.sched.state| ==>
          (x == s.sched.current <==> s.sched.state[x] == Running)
          && (x in s.sched.queue <==> s.sched.state[x] == Ready))
    && (forall x: nat :: x < |s.sched.state| && x < |s.doing| && s.sched.state[x] == Blocked ==>
          Waits(s.doing[x], x, s.pipes))
    && Distinct(s.sched.queue)
    && (s.sched.idle == s.sched.current || s.sched.idle in s.sched.queue)
  }

  lemma PromisesHold(s: System)
    requires s.Valid()
    ensures Promises(s)
  {
    hide Held, RingOk, Linked, Waits, DoingOk;
    forall i | 0 <= i < |s.pipes| ensures WaitOk(s.pipes[i]) {
      assert PipeOk(s.pipes[i]);
    }
  }

  /** What the calls of a run returned is what the reference machine returns, call by call. */
  predicate Faithful(w: World, events: seq<Event>, log: seq<Outcome>, roles: Roles) {
    |log| == |events| && forall k :: 0 <= k < |log| ==>
      log[k] == Next(WorldAfter(w, events[..k], roles), events[k], roles).outcome
  }

  /** All bytes readers of the pipe got, in order. */
  function AllGot(log: seq<Outcome>, i: nat): seq<byte> {
    if log == [] then []
    else
      var o := log[|log| - 1];
      AllGot(log[..|log| - 1], i) + if o.Got? && o.i == i then o.bytes else []
  }

  /** All bytes writers have put in, in order. */
  function AllPut(log: seq<Outcome>, i: nat): seq<byte> {
    if log == [] then []
    else
      var o := log[|log| - 1];
      AllPut(log[..|log| - 1], i) + if o.Put? && o.i == i then o.bytes else []
  }

  /**
   * Nothing is lost, made up or reordered: what was in the pipe and what was put in is what was
   * got and what is still there.
   */
  predicate Conserved(before: seq<Tube>, log: seq<Outcome>, after: seq<Tube>) {
    |after| == |before| && forall i :: 0 <= i < |before| ==>
      before[i].bytes + AllPut(log, i) == AllGot(log, i) + after[i].bytes
  }

  /** One step moves bytes between its caller and the ends of one pipe. */
  predicate Moved(w: World, n: Turnout, i: nat) {
    && |n.world.tubes| == |w.tubes|
    && (i < |w.tubes| ==>
          w.tubes[i].bytes + (if n.outcome.Put? && n.outcome.i == i then n.outcome.bytes else [])
          == (if n.outcome.Got? && n.outcome.i == i then n.outcome.bytes else []) + n.world.tubes[i].bytes)
  }

  lemma ReadMoves(w: World, j: nat, n: nat, i: nat)
    ensures Moved(w, ReadOn(w, j, n), i)
  {
  }

  lemma WriteMoves(w: World, j: nat, data: seq<byte>, i: nat)
    ensures Moved(w, WriteOn(w, j, data), i)
  {
  }

  lemma ClosesMove(w: World, j: nat, reader: bool, i: nat)
    ensures Moved(w, Turnout(CloseReadOn(w, j), Nothing), i) && Moved(w, Turnout(CloseWriteOn(w, j), Nothing), i)
    ensures Moved(w, Turnout(DupOn(w, j, reader), Nothing), i)
  {
  }

  lemma DoingMoves(w: World, d: Doing, n: Turnout, i: nat)
    requires Moved(WithDoing(w, d), n, i)
    ensures Moved(w, n, i)
  {
  }

  lemma NextMoves(w: World, e: Event, roles: Roles, i: nat)
    ensures Moved(w, Next(w, e, roles), i)
  {
    var x := w.current;
    assert Moved(w, Turnout(w, Nothing), i) && Moved(w, Turnout(Switch(w, false), Nothing), i)
      && forall j :: Moved(w, Turnout(w, Broken(j)), i);
    hide ReadOn, WriteOn, CloseReadOn, CloseWriteOn, DupOn, Switch, Moved, WithDoing, At;
    if x < |w.doing| && w.doing[x].Reading? {
      ReadMoves(w, w.doing[x].i, w.doing[x].n, i);
    } else if x < |w.doing| && w.doing[x].Writing? {
      WriteMoves(w, w.doing[x].i, w.doing[x].data, i);
    }
    match e
    case Tick =>
    case Read(j, n) =>
      ReadMoves(WithDoing(w, Reading(j, n)), j, n, i);
      DoingMoves(w, Reading(j, n), ReadOn(WithDoing(w, Reading(j, n)), j, n), i);
    case Write(j, data) =>
      WriteMoves(WithDoing(w, Writing(j, data)), j, data, i);
      DoingMoves(w, Writing(j, data), WriteOn(WithDoing(w, Writing(j, data)), j, data), i);
    case CloseReader(j) => ClosesMove(w, j, true, i);
    case CloseWriter(j) => ClosesMove(w, j, true, i);
    case Dup(j, reader) => ClosesMove(w, j, reader, i);
  }

  /** Every run of the reference machine conserves the bytes of every pipe. */
  lemma {:induction false} RunConserves(w: World, events: seq<Event>, log: seq<Outcome>, roles: Roles)
    requires Faithful(w, events, log, roles)
    ensures Conserved(w.tubes, log, WorldAfter(w, events, roles).tubes)
  {
    if events != [] {
      hide Next;
      var n := |events| - 1;
      var before, log0 := events[..n], log[..n];
      assert forall k :: 0 <= k < n ==> before[..k] == events[..k];
      RunConserves(w, before, log0, roles);
      var w1 := WorldAfter(w, before, roles);
      forall i | 0 <= i < |w.tubes|
        ensures |WorldAfter(w, events, roles).tubes| == |w.tubes|
        ensures w.tubes[i].bytes + AllPut(log, i) == AllGot(log, i) + WorldAfter(w, events, roles).tubes[i].bytes
      {
        NextMoves(w1, events[n], roles, i);
        Regroup(w.tubes[i].bytes, AllPut(log0, i), if log[n].Put? && log[n].i == i then log[n].bytes else [],
                AllGot(log0, i), if log[n].Got? && log[n].i == i then log[n].bytes else [],
                w1.tubes[i].bytes, WorldAfter(w, events, roles).tubes[i].bytes);
      }
      NextMoves(w1, events[n], roles, 0);
    }
  }

  lemma Regroup(a: seq<byte>, put: seq<byte>, p: seq<byte>, got: seq<byte>, g: seq<byte>, b: seq<byte>, c: seq<byte>)
    requires a + put == got + b && b + p == g + c
    ensures a + (put + p) == (got + g) + c
  {
    assert a + (put + p) == (a + put) + p;
    assert (got + b) + p == got + (b + p);
    assert got + (g + c) == (got + g) + c;
  }

  /**
   * Every run of readers, writers, closers and timer ticks is a run of the reference
   * machine: every call returns what it returns there, no byte is lost, made up or
   * reordered, and at the end nobody sleeps who could go on.
   */
  method Run(s: System, events: seq<Event>) returns (log: seq<Outcome>)
    requires s.Valid()
    modifies s, s.sched
    ensures s.Valid() && Promises(s)
    ensures Faithful(old(s.Now()), events, log, s.Parts()) && s.Now() == WorldAfter(old(s.Now()), events, s.Parts())
    ensures Conserved(old(s.Now()).tubes, log, s.Now().tubes)
  {
    hide System.Valid, System.Sound, Promises, Next, Conserved;
    log := [];
    for k := 0 to |events|
      invariant s.Valid() && |log| == k
      invariant Faithful(old(s.Now()), events[..k], log, s.Parts())
        && s.Now() == WorldAfter(old(s.Now()), events[..k], s.Parts())
    {
      var o := Step(s, events[k]);
      FaithfulMore(old(s.Now()), events, log, s.Parts(), k, o);
      log := log + [o];
    }
    assert events[..|events|] == events;
    PromisesHold(s);
    RunConserves(old(s.Now()), events, log, s.Parts());
  }

  lemma FaithfulMore(w: World, events: seq<Event>, log: seq<Outcome>, roles: Roles, k: nat, o: Outcome)
    requires k < |events| && Faithful(w, events[..k], log, roles)
      && o == Next(WorldAfter(w, events[..k], roles), events[k], roles).outcome
    ensures Faithful(w, events[..k + 1], log + [o], roles)
    ensures WorldAfter(w, events[..k + 1], roles) == Next(WorldAfter(w, events[..k], roles), events[k], roles).world
  {
    hide Next;
    var es := events[..k + 1];
    assert es[..|es| - 1] == events[..k];
    forall j | 0 <= j < |log + [o]|
      ensures (log + [o])[j] == Next(WorldAfter(w, es[..j], roles), es[j], roles).outcome {
      assert es[..j] == events[..j];
      if j < k {
        assert events[..k][..j] == events[..j];
      }
    }
  }
}
