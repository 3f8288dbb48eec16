/** A pipe as a bounded queue: what the stretches of `pipewrite` and `piperead` between two
    sleeps do, and what that means for every interleaving of calls. */
module PipeSpec {
  const PIPESIZE := 512

  function Min(x: int, y: int): int { if x < y then x else y }

  /** How a stretch ends: the call returns n or -1, or it sleeps and will go on from there. */
  datatype Outcome = Done | Failed | Asleep

  /** How many of the `left` bytes fit. */
  function Room(queue: seq<char>, left: int): (k: nat)
    ensures |queue| <= PIPESIZE ==> k <= PIPESIZE - |queue|
    ensures left >= 0 ==> k <= left
  {
    if left < 0 || |queue| > PIPESIZE then 0 else Min(PIPESIZE - |queue|, left)
  }

  /** The k bytes at addr from i on, if they are there. */
  function Slice(addr: seq<char>, i: nat, k: nat): seq<char> { if i + k <= |addr| then addr[i..i + k] else [] }

  /** The end of a stretch of a write that had `left` bytes to go. */
  function WriteOutcome(queue: seq<char>, left: int, readopen: bool, killed: bool): Outcome {
    if left <= Room(queue, left) then Done else if !readopen || killed then Failed else Asleep
  }

  function ReadOutcome(queue: seq<char>, writeopen: bool, killed: bool): Outcome {
    if queue != [] || !writeopen then Done else if killed then Failed else Asleep
  }

  /** How many bytes a read that does not wait takes. */
  function Taken(queue: seq<char>, n: int): (k: nat)
    ensures k <= |queue| && (n >= 0 ==> k <= n)
    ensures n > 0 ==> (k == 0 <==> queue == [])
  {
    if n < 0 then 0 else Min(n, |queue|)
  }

  /** A call in progress: a write of the first n bytes at addr of which i are in, or a read. */
  datatype Call =
    | Write(addr: seq<char>, n: int, i: nat, asleep: bool)
    | Read(n: int, asleep: bool)

  /** What a finished call returned; a read also has its bytes. */
  datatype Result = Wrote(addr: seq<char>, n: int, ok: bool, i: nat) | Got(bytes: seq<char>) | ReadFailed

  /** The pipe, the calls by number, and the history: every byte put in with the number of
      its call, and every byte taken out. */
  datatype State = State(
    queue: seq<char>, readopen: bool, writeopen: bool,
    calls: map<nat, Call>, results: map<nat, Result>,
    sent: seq<(nat, char)>, received: seq<char>)

  datatype Action =
    | BeginWrite(id: nat, addr: seq<char>, n: int)
    | BeginRead(id: nat, n: int)
    | Run(id: nat, killed: bool)   // one stretch under the lock
    | Rouse(id: nat)               // `kill` makes a sleeping process runnable
    | Close(writable: bool)        // `pipeclose`

  function WakeReaders(calls: map<nat, Call>): map<nat, Call> {
    map id | id in calls :: if calls[id].Read? then calls[id].(asleep := false) else calls[id]
  }

  function WakeWriters(calls: map<nat, Call>): map<nat, Call> {
    map id | id in calls :: if calls[id].Write? then calls[id].(asleep := false) else calls[id]
  }

  ghost predicate Enabled(s: State, a: Action) {
    match a
    case BeginWrite(id, addr, n) => id !in s.calls && id !in s.results && n <= |addr|
    case BeginRead(id, n) => id !in s.calls && id !in s.results
    case Run(id, killed) => id in s.calls && !s.calls[id].asleep
    case Rouse(id) => id in s.calls
    case Close(writable) => true
  }

  function Tag(id: nat, bytes: seq<char>): (r: seq<(nat, char)>)
    ensures |r| == |bytes|
  {
    seq(|bytes|, k requires 0 <= k < |bytes| => (id, bytes[k]))
  }

  /** The bytes that a stretch of write `id` puts in. */
  ghost function Put(s: State, id: nat): (r: seq<char>)
    requires Enabled(s, Run(id, false)) && s.calls[id].Write?
  {
    var c := s.calls[id];
    Slice(c.addr, c.i, Room(s.queue, c.n - c.i))
  }

  /** A stretch of a write: put in what fits; wake the readers unless the call fails. */
  ghost function RunWrite(s: State, id: nat, killed: bool): State
    requires Enabled(s, Run(id, killed)) && s.calls[id].Write?
  {
    var c := s.calls[id];
    var k := Room(s.queue, c.n - c.i);
    var out := WriteOutcome(s.queue, c.n - c.i, s.readopen, killed);
    var t := s.(queue := s.queue + Put(s, id), sent := s.sent + Tag(id, Put(s, id)));
    if out.Asleep? then t.(calls := WakeReaders(s.calls)[id := c.(i := c.i + k, asleep := true)])
    else t.(calls := (if out.Failed? then s.calls else WakeReaders(s.calls)) - {id},
            results := s.results[id := Wrote(c.addr, c.n, out.Done?, c.i + k)])
  }

  /** A stretch of a read. */
  ghost function RunRead(s: State, id: nat, killed: bool): State
    requires Enabled(s, Run(id, killed)) && s.calls[id].Read?
  {
    var c := s.calls[id];
    var k := Taken(s.queue, c.n);
    match ReadOutcome(s.queue, s.writeopen, killed)
    case Asleep => s.(calls := s.calls[id := c.(asleep := true)])
    case Failed => s.(calls := s.calls - {id}, results := s.results[id := ReadFailed])
    case Done => s.(queue := s.queue[k..], received := s.received + s.queue[..k],
                    calls := WakeWriters(s.calls) - {id}, results := s.results[id := Got(s.queue[..k])])
  }

  ghost function Apply(s: State, a: Action): State
    requires Enabled(s, a)
  {
    match a
    case BeginWrite(id, addr, n) => s.(calls := s.calls[id := Write(addr, n, 0, false)])
    case BeginRead(id, n) => s.(calls := s.calls[id := Read(n, false)])
    case Run(id, killed) => if s.calls[id].Write? then RunWrite(s, id, killed) else RunRead(s, id, killed)
    case Rouse(id) => s.(calls := s.calls[id := s.calls[id].(asleep := false)])
    case Close(writable) =>
      if writable then s.(writeopen := false, calls := WakeReaders(s.calls))
      else s.(readopen := false, calls := WakeWriters(s.calls))
  }

  function Bytes(sent: seq<(nat, char)>): (r: seq<char>)
    ensures |r| == |sent|
  {
    seq(|sent|, k requires 0 <= k < |sent| => sent[k].1)
  }

  /** The bytes that one call put in, in their order. */
  function From(sent: seq<(nat, char)>, id: nat): seq<char>
    decreases |sent|
  {
    if sent == [] then []
    else
      var last := sent[|sent| - 1];
      From(sent[..|sent| - 1], id) + (if last.0 == id then [last.1] else [])
  }

  ghost predicate Init(s: State) {
    s == State([], true, true, map[], map[], [], [])
  }

  /** The queue is what has been sent and not received, and each write has put in its bytes
      in order, each once. */
  ghost predicate Fifo(s: State) {
    && |s.queue| <= PIPESIZE
    && Bytes(s.sent) == s.received + s.queue
  }

  ghost predicate Writes(s: State) { forall id: nat :: WriteOk(s, id) }

  ghost predicate WriteOk(s: State, id: nat) { IdOk(s.calls, s.results, id, From(s.sent, id)) }

  ghost predicate IdOk(calls: map<nat, Call>, results: map<nat, Result>, id: nat, put: seq<char>) {
    if id in calls then id !in results && CallOk(calls[id], put)
    else if id in results then ResultOk(results[id], put)
    else put == []
  }

  predicate CallFits(c: Call) {
    c.Write? ==> c.i <= |c.addr| && c.n <= |c.addr| && (c.n >= 0 ==> c.i <= c.n) && (c.n < 0 ==> c.i == 0)
  }

  ghost predicate CallOk(c: Call, put: seq<char>) {
    CallFits(c) && put == if c.Write? then c.addr[..c.i] else []
  }

  ghost predicate ResultOk(r: Result, put: seq<char>) {
    if r.Wrote? then r.i <= |r.addr| && r.n <= |r.addr| && put == r.addr[..r.i] &&
      (r.ok ==> r.i == if r.n >= 0 then r.n else 0)
    else put == []
  }

  /** A sleeping writer has a reason to wait. */
  ghost predicate WritersWait(s: State) {
    forall id :: id in s.calls && s.calls[id].Write? && s.calls[id].asleep ==> |s.queue| == PIPESIZE && s.readopen
  }

  /** A sleeping reader has a reason to wait. */
  ghost predicate ReadersWait(s: State) {
    forall id :: id in s.calls && s.calls[id].Read? && s.calls[id].asleep ==> s.queue == [] && s.writeopen
  }

  ghost predicate Inv(s: State) { Fifo(s) && Writes(s) && WritersWait(s) }

  lemma {:induction false} FromAppend(sent: seq<(nat, char)>, id: nat, put: seq<char>, j: nat)
    ensures From(sent + Tag(id, put), j) == From(sent, j) + (if j == id then put else [])
    decreases |put|
  {
    var all := sent + Tag(id, put);
    if put == [] {
      assert all == sent;
    } else {
      var rest := put[..|put| - 1];
      assert all[..|all| - 1] == sent + Tag(id, rest);
      FromAppend(sent, id, rest, j);
      assert put == rest + [put[|put| - 1]];
    }
  }

  lemma BytesAppend(sent: seq<(nat, char)>, id: nat, put: seq<char>)
    ensures Bytes(sent + Tag(id, put)) == Bytes(sent) + put
  {
  }

  lemma RunWriteFifo(s: State, id: nat, killed: bool)
    requires Fifo(s) && Enabled(s, Run(id, killed)) && s.calls[id].Write?
    ensures Fifo(RunWrite(s, id, killed))
  {
    BytesAppend(s.sent, id, Put(s, id));
    assert s.received + s.queue + Put(s, id) == s.received + (s.queue + Put(s, id));
  }

  /** The call's own bytes ... */
  lemma RunWriteOwn(s: State, id: nat, killed: bool)
    requires Enabled(s, Run(id, killed)) && s.calls[id].Write? && id !in s.results && CallFits(s.calls[id])
    ensures var c, s' := s.calls[id], RunWrite(s, id, killed);
      c.i <= |c.addr| && IdOk(s'.calls, s'.results, id, c.addr[..c.i] + Put(s, id))
  {
    var c := s.calls[id];
    var k := Room(s.queue, c.n - c.i);
    assert c.addr[..c.i] + Put(s, id) == c.addr[..c.i + k];
  }

  /** ... and those of the others. */
  lemma RunWriteOther(s: State, id: nat, killed: bool, j: nat, put: seq<char>)
    requires Enabled(s, Run(id, killed)) && s.calls[id].Write? && j != id && IdOk(s.calls, s.results, j, put)
    ensures var s' := RunWrite(s, id, killed); IdOk(s'.calls, s'.results, j, put)
  {
  }

  lemma RunReadFifo(s: State, id: nat, killed: bool)
    requires Fifo(s) && Enabled(s, Run(id, killed)) && s.calls[id].Read?
    ensures Fifo(RunRead(s, id, killed))
  {
    var k := Taken(s.queue, s.calls[id].n);
    assert s.received + s.queue == s.received + s.queue[..k] + s.queue[k..];
  }

  lemma RunWriteFrom(s: State, id: nat, killed: bool, j: nat)
    requires Enabled(s, Run(id, killed)) && s.calls[id].Write?
    ensures From(RunWrite(s, id, killed).sent, j) == From(s.sent, j) + (if j == id then Put(s, id) else [])
  {
    FromAppend(s.sent, id, Put(s, id), j);
  }

  lemma WriteOkStep(s: State, a: Action, j: nat)
    requires WriteOk(s, j) && Enabled(s, a) && (!a.Close? ==> WriteOk(s, a.id))
    ensures WriteOk(Apply(s, a), j)
  {
    if a.Run? && s.calls[a.id].Write? {
      RunWriteFrom(s, a.id, a.killed, j);
      if j == a.id {
        RunWriteOwn(s, j, a.killed);
      } else {
        assert From(s.sent, j) + [] == From(s.sent, j);
        RunWriteOther(s, a.id, a.killed, j, From(s.sent, j));
      }
    } else {
      OtherKeeps(s, a, j, From(s.sent, j));
    }
  }

  lemma OtherKeeps(s: State, a: Action, j: nat, put: seq<char>)
    requires Enabled(s, a) && IdOk(s.calls, s.results, j, put) && (a.Run? ==> s.calls[a.id].Read?)
    ensures IdOk(Apply(s, a).calls, Apply(s, a).results, j, put)
  {
  }

  lemma WritersWaitStep(s: State, a: Action)
    requires Writes(s) && WritersWait(s) && |s.queue| <= PIPESIZE && Enabled(s, a)
    ensures WritersWait(Apply(s, a))
  {
    if a.Run? { assert WriteOk(s, a.id); }
  }

  lemma InvStep(s: State, a: Action)
    requires Inv(s) && Enabled(s, a)
    ensures Inv(Apply(s, a))
  {
    if a.Run? {
      if s.calls[a.id].Write? { RunWriteFifo(s, a.id, a.killed); } else { RunReadFifo(s, a.id, a.killed); }
    }
    WritersWaitStep(s, a);
    forall j: nat ensures WriteOk(Apply(s, a), j) {
      assert WriteOk(s, j) && (!a.Close? ==> WriteOk(s, a.id));
      WriteOkStep(s, a, j);
    }
  }

  ghost predicate IsRun(run: seq<State>, trace: seq<Action>) {
    && |run| == |trace| + 1 && Init(run[0])
    && forall i :: 0 <= i < |trace| ==> Enabled(run[i], trace[i]) && run[i + 1] == Apply(run[i], trace[i])
  }

  lemma {:induction false} RunInv(run: seq<State>, trace: seq<Action>, n: nat)
    requires IsRun(run, trace) && n < |run|
    ensures Inv(run[n])
  {
    if n > 0 {
      RunInv(run, trace, n - 1);
      InvStep(run[n - 1], trace[n - 1]);
    }
  }

  ghost predicate Delivered(r: Result, put: seq<char>) {
    r.Wrote? && r.ok && r.n >= 0 ==> r.n <= |r.addr| && put == r.addr[..r.n]
  }

  /** At every point of every run the bytes read are the first of the bytes written, at most
      PIPESIZE are in between, and a write that returned n has sent its n bytes in order. */
  lemma PipeIsFifo(run: seq<State>, trace: seq<Action>, n: nat)
    requires IsRun(run, trace) && n < |run|
    ensures run[n].received <= Bytes(run[n].sent) && |run[n].sent| - |run[n].received| <= PIPESIZE
    ensures forall id :: id in run[n].results ==> Delivered(run[n].results[id], From(run[n].sent, id))
  {
    RunInv(run, trace, n);
    forall id | id in run[n].results ensures Delivered(run[n].results[id], From(run[n].sent, id)) {
      assert WriteOk(run[n], id);
    }
  }

  /** A read of a positive length that ends in this step returns nothing exactly when the
      pipe is empty and its write end is closed. */
  lemma EmptyReadMeansClosed(run: seq<State>, trace: seq<Action>, n: nat)
    requires IsRun(run, trace) && n < |trace| && trace[n].Run?
    requires var c := run[n].calls[trace[n].id]; c.Read? && c.n > 0
    requires trace[n].id in run[n + 1].results
    ensures run[n + 1].results[trace[n].id] == Got([]) <==> run[n].queue == [] && !run[n].writeopen
  {
    RunInv(run, trace, n);
    assert WriteOk(run[n], trace[n].id);
  }

  /** What a stretch of a read does, in every run. It waits exactly if the pipe is empty and its
      write end open: a killed reader fails then and any other sleeps. Otherwise it returns the first
      bytes of the pipe, at most n, and fewer than n only if it leaves the pipe empty. */
  lemma ReadTakesAll(run: seq<State>, trace: seq<Action>, n: nat)
    requires IsRun(run, trace) && n < |trace| && trace[n].Run? && run[n].calls[trace[n].id].Read?
    ensures var s, s', id, c := run[n], run[n + 1], trace[n].id, run[n].calls[trace[n].id];
      if s.queue == [] && s.writeopen then
        && s'.queue == s.queue
        && (trace[n].killed ==> id !in s'.calls && id in s'.results && s'.results[id] == ReadFailed)
        && (!trace[n].killed ==> id in s'.calls && s'.calls[id].asleep && id !in s'.results)
      else
        && id !in s'.calls && id in s'.results && s'.results[id].Got?
        && s'.results[id].bytes + s'.queue == s.queue
        && (c.n >= 0 ==> |s'.results[id].bytes| <= c.n)
        && (c.n < 0 ==> s'.results[id].bytes == [])
        && (|s'.results[id].bytes| < c.n ==> s'.queue == [])
  {
    RunInv(run, trace, n);
    assert WriteOk(run[n], trace[n].id);
  }

  /** What a stretch of a write does, in every run: it puts its next bytes behind the others, and if
      it has not put in all n then the pipe is full. It ends when all are in, and also when the pipe
      is full and the reader gone or the caller killed. */
  lemma WriteFillsPipe(run: seq<State>, trace: seq<Action>, n: nat)
    requires IsRun(run, trace) && n < |trace| && trace[n].Run? && run[n].calls[trace[n].id].Write?
    ensures var s, s', id, c := run[n], run[n + 1], trace[n].id, run[n].calls[trace[n].id];
      var ends := id in s'.results;
      var i := if ends && s'.results[id].Wrote? then s'.results[id].i
               else if !ends && id in s'.calls && s'.calls[id].Write? then s'.calls[id].i else 0;
      && (ends <==> i >= c.n || !s.readopen || trace[n].killed)
      && (ends ==> id !in s'.calls && s'.results[id] == Wrote(c.addr, c.n, i >= c.n, i))
      && (!ends ==> id in s'.calls && s'.calls[id] == Write(c.addr, c.n, i, true))
      && c.i <= i <= |c.addr| && s'.queue == s.queue + c.addr[c.i..i]
      && (i < c.n ==> |s'.queue| == PIPESIZE)
  {
    RunInv(run, trace, n);
    assert WriteOk(run[n], trace[n].id);
  }

  /** The step that leaves a reader asleep beside a pipe with bytes in it: a write that puts
      bytes in, finds the pipe full and fails before it wakes anyone. */
  ghost predicate Strands(s: State, a: Action)
    requires Enabled(s, a)
  {
    && a.Run? && s.calls[a.id].Write?
    && WriteOutcome(s.queue, s.calls[a.id].n - s.calls[a.id].i, s.readopen, a.killed).Failed?
    && |s.queue| < PIPESIZE
    && exists id :: id in s.calls && s.calls[id].Read? && s.calls[id].asleep
  }

  /** Readers never sleep past bytes or past the closing of the write end, except through
      exactly that step. */
  lemma ReadersWaitStep(s: State, a: Action)
    requires Inv(s) && ReadersWait(s) && Enabled(s, a)
    ensures ReadersWait(Apply(s, a)) <==> !Strands(s, a)
  {
    if a.Run? && s.calls[a.id].Write? {
      var s' := Apply(s, a);
      assert WriteOk(s, a.id);
      if Strands(s, a) {
        var id :| id in s.calls && s.calls[id].Read? && s.calls[id].asleep;
        assert id in s'.calls && s'.queue != [];
      }
    }
  }

  lemma {:induction false} ReadersWaitRun(run: seq<State>, trace: seq<Action>, n: nat)
    requires IsRun(run, trace) && n < |run|
    requires forall i :: 0 <= i < |trace| ==> !Strands(run[i], trace[i])
    ensures ReadersWait(run[n])
  {
    if n > 0 {
      ReadersWaitRun(run, trace, n - 1);
      RunInv(run, trace, n - 1);
      ReadersWaitStep(run[n - 1], trace[n - 1]);
    }
  }

  /** It does happen: a reader sleeps on an empty pipe, a killed writer fills the pipe. */
  lemma KilledWriterStrandsReader(addr: seq<char>) returns (run: seq<State>, trace: seq<Action>)
    requires |addr| == PIPESIZE + 1
    ensures IsRun(run, trace) && |trace| == 4
    ensures run[4].calls == map[0 := Read(1, true)] && |run[4].queue| == PIPESIZE
  {
    var s0 := State([], true, true, map[], map[], [], []);
    trace := [BeginRead(0, 1), Run(0, false), BeginWrite(1, addr, |addr|), Run(1, true)];
    var s1 := Apply(s0, trace[0]);
    var s2 := Apply(s1, trace[1]);
    var s3 := Apply(s2, trace[2]);
    var s4 := Apply(s3, trace[3]);
    run := [s0, s1, s2, s3, s4];
    assert s2.calls == map[0 := Read(1, true)];
    assert s4.calls == s2.calls;
  }
}

/** The ring buffer of pipe.c. */
module Pipe {
  import opened PipeSpec

  const WRAP := 0x1_0000_0000

  lemma SlotUnderWrap(n: int)
    requires n >= 0
    ensures (n % WRAP) % PIPESIZE == n % PIPESIZE
  {
    var q := n / WRAP;
    assert n == q * WRAP + n % WRAP;
    assert q * WRAP == (q * (WRAP / PIPESIZE)) * PIPESIZE;
    SameSlot(n % WRAP, q * (WRAP / PIPESIZE));
  }

  lemma SameSlot(m: int, k: int)
    ensures (m + k * PIPESIZE) % PIPESIZE == m % PIPESIZE
  {
  }

  /** The bytes of the ring from counter `nread` on. */
  ghost predicate Holds(data: seq<char>, nread: int, queue: seq<char>) {
    && |data| == PIPESIZE && 0 <= nread < WRAP && |queue| <= PIPESIZE
    && forall k :: 0 <= k < |queue| ==> data[(nread + k) % PIPESIZE] == queue[k]
  }

  /** The write counter for a queue of the given length; it wraps like the other. */
  function Counter(nread: int, len: int): int { (nread + len) % WRAP }

  lemma CounterSteps(nread: int, len: nat)
    requires 0 <= nread < WRAP && len <= PIPESIZE
    ensures (Counter(nread, len) + 1) % WRAP == Counter(nread, len + 1)
    ensures len > 0 ==> Counter((nread + 1) % WRAP, len - 1) == Counter(nread, len)
    ensures nread == Counter(nread, len) <==> len == 0
    ensures Counter(nread, len) == (nread + PIPESIZE) % WRAP <==> len == PIPESIZE
    ensures Counter(nread, len) % PIPESIZE == (nread + len) % PIPESIZE
  {
    SlotUnderWrap(nread + len);
  }

  /** A byte put at the write counter comes last; the others stay. */
  lemma PutLast(data: seq<char>, nread: int, queue: seq<char>, x: char)
    requires Holds(data, nread, queue) && |queue| < PIPESIZE
    ensures Holds(data[(nread + |queue|) % PIPESIZE := x], nread, queue + [x])
  {
    var after := data[(nread + |queue|) % PIPESIZE := x];
    forall k | 0 <= k < |queue| ensures after[(nread + k) % PIPESIZE] == queue[k] {
      assert (nread + k) % PIPESIZE != (nread + |queue|) % PIPESIZE;
    }
  }

  /** Taking the byte at the read counter leaves the rest, also when the counter wraps. */
  lemma TakeFirst(data: seq<char>, nread: int, queue: seq<char>)
    requires Holds(data, nread, queue) && queue != []
    ensures data[nread % PIPESIZE] == queue[0]
    ensures Holds(data, (nread + 1) % WRAP, queue[1..])
  {
    assert data[(nread + 0) % PIPESIZE] == queue[0];
    forall k | 0 <= k < |queue| - 1
      ensures data[((nread + 1) % WRAP + k) % PIPESIZE] == queue[1..][k]
    {
      SlotUnderWrap(nread + 1 + k);
      SlotUnderWrap((nread + 1) % WRAP + k);
      assert data[(nread + (k + 1)) % PIPESIZE] == queue[k + 1];
    }
  }

  class PipeBuffer {
    var data: array<char>
    var nread: int
    var nwrite: int
    var readopen: bool
    var writeopen: bool
    ghost var queue: seq<char>

    ghost predicate Valid()
      reads this, data
    {
      && data.Length == PIPESIZE && Holds(data[..], nread, queue)
      && nwrite == Counter(nread, |queue|)
    }

    /** `pipealloc`, for the page once it has been allocated. */
    constructor ()
      ensures Valid() && fresh(data) && queue == [] && readopen && writeopen
    {
      data := new char[PIPESIZE];
      nread, nwrite, readopen, writeopen, queue := 0, 0, true, true, [];
    }

    /** The stretch of `pipewrite` from byte `from` on, up to its return or its next sleep.
        It wakes the readers unless it fails. */
    method WriteStretch(addr: seq<char>, n: int, from: nat, killed: bool) returns (i: nat, out: Outcome, wakes: bool)
      requires Valid() && n <= |addr| && from <= |addr|
      modifies this, data
      ensures Valid() && data == old(data) && readopen == old(readopen) && writeopen == old(writeopen)
      ensures i == from + Room(old(queue), n - from) && queue == old(queue) + addr[from..i]
      ensures out == WriteOutcome(old(queue), n - from, readopen, killed)
      ensures out.Done? <==> i >= n
      ensures !out.Done? ==> |queue| == PIPESIZE && (out.Failed? <==> !readopen || killed)
      ensures wakes == !out.Failed?
    {
      i := from;
      while i < n
        invariant Valid() && data == old(data) && readopen == old(readopen) && writeopen == old(writeopen)
        invariant from <= i <= |addr| && (from <= n ==> i <= n) && (n < from ==> i == from)
        invariant queue == old(queue) + addr[from..i]
      {
        CounterSteps(nread, |queue|);
        if nwrite == (nread + PIPESIZE) % WRAP {
          if !readopen || killed {
            return i, Failed, false;
          }
          return i, Asleep, true;
        }
        PutByte(addr[i]);
        i := i + 1;
      }
      return i, Done, true;
    }

    method PutByte(x: char)
      requires Valid() && nwrite != (nread + PIPESIZE) % WRAP
      modifies this`nwrite, this`queue, data
      ensures Valid() && queue == old(queue) + [x]
    {
      CounterSteps(nread, |queue|);
      PutLast(data[..], nread, queue, x);
      data[nwrite % PIPESIZE] := x;
      nwrite := (nwrite + 1) % WRAP;
      queue := queue + [x];
    }

    /** The stretch of `piperead` up to its return or its next sleep; a read that is done
        wakes the writers. */
    method ReadStretch(n: int, killed: bool) returns (bytes: seq<char>, out: Outcome)
      requires Valid()
      modifies this`nread, this`queue
      ensures Valid() && out == ReadOutcome(old(queue), writeopen, killed)
      ensures out.Done? ==> bytes == old(queue)[..Taken(old(queue), n)] && queue == old(queue)[Taken(old(queue), n)..]
      ensures out.Done? ==> bytes + queue == old(queue) && (n >= 0 ==> |bytes| <= n) && (n < 0 ==> bytes == [])
      ensures out.Done? && n >= 0 ==> |bytes| == n || queue == []
      ensures out.Done? <==> old(queue) != [] || !writeopen
      ensures !out.Done? ==> (out.Failed? <==> killed)
      ensures !out.Done? ==> bytes == [] && queue == old(queue) && nread == old(nread)
    {
      CounterSteps(nread, |queue|);
      if nread == nwrite && writeopen {
        return [], if killed then Failed else Asleep;
      }
      bytes, out := [], Done;
      while |bytes| < n
        invariant Valid() && |bytes| <= |old(queue)| && (n >= 0 ==> |bytes| <= n) && (n < 0 ==> bytes == [])
        invariant bytes == old(queue)[..|bytes|] && queue == old(queue)[|bytes|..]
      {
        CounterSteps(nread, |queue|);
        if nread == nwrite {
          break;
        }
        var x := TakeByte();
        bytes := bytes + [x];
      }
    }

    method TakeByte() returns (x: char)
      requires Valid() && queue != []
      modifies this`nread, this`queue
      ensures Valid() && x == old(queue)[0] && queue == old(queue)[1..]
    {
      CounterSteps(nread, |queue|);
      TakeFirst(data[..], nread, queue);
      x := data[nread % PIPESIZE];
      nread := (nread + 1) % WRAP;
      queue := queue[1..];
    }

    /** `pipeclose`: the page goes back when both ends are closed. */
    method Close(writable: bool) returns (freed: bool)
      requires Valid()
      modifies this`readopen, this`writeopen
      ensures Valid() && readopen == (old(readopen) && writable) && writeopen == (old(writeopen) && !writable)
      ensures freed <==> !readopen && !writeopen
    {
      if writable {
        writeopen := false;
      } else {
        readopen := false;
      }
      freed := !readopen && !writeopen;
    }
  }
}
