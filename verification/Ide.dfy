/** The disk driver as a state machine: calls of `iderw` that wait in a queue, the controller
    with its one command, and the interrupt (ide.c); against the driver that does each request
    at once (memide.c). */
module IdeSpec {
  import opened Blocks

  datatype Buf = Buf(sector: nat, data: Block, valid: bool, dirty: bool)

  /** The controller: idle, at work on a command, or done with it and about to interrupt. */
  datatype Command =
    | Idle
    | Reading(sector: nat)
    | Writing(sector: nat, data: Block)
    | ReadReady(data: Block)
    | Written

  predicate Synced(b: Buf) { b.valid && !b.dirty }

  /** memide.c: a dirty buffer goes to the disk, another is read from it. */
  datatype Memory = Memory(disk: Disk, bufs: seq<Buf>)

  function Sync(m: Memory, b: nat): Memory
    requires b < |m.bufs| && m.bufs[b].sector < |m.disk|
  {
    var x := m.bufs[b];
    if x.dirty then Memory(m.disk[x.sector := x.data], m.bufs[b := x.(dirty := false, valid := true)])
    else Memory(m.disk, m.bufs[b := x.(data := m.disk[x.sector], valid := true)])
  }

  /** The command that `idestart` gives for a buffer. */
  function CommandFor(x: Buf): Command {
    if x.dirty then Writing(x.sector, x.data) else Reading(x.sector)
  }

  /** The buffer after the interrupt, given what the controller holds. */
  function Finished(x: Buf, cmd: Command): Buf {
    var y := if !x.dirty && cmd.ReadReady? then x.(data := cmd.data) else x;
    y.(valid := true, dirty := false)
  }

  /** `inside` holds the buffers of calls that have not returned; `order` and `served` record
      the requests made and the requests completed. */
  datatype State = State(disk: Disk, bufs: seq<Buf>, queue: seq<nat>, cmd: Command, inside: set<nat>,
                         order: seq<nat>, served: seq<nat>)

  datatype Action =
    | Call(b: nat)             // `iderw` up to its wait
    | Complete                 // the disk carries out the command
    | Intr                     // `ideintr`
    | Return(b: nat)           // `iderw` finds its buffer done
    | Touch(b: nat, x: Buf)    // the buffer's holder, or the cache, changes it

  /** The callers hold their buffers busy and the cache has one buffer for a sector, so no two
      calls are about one buffer or one sector. */
  ghost predicate Enabled(s: State, a: Action) {
    match a
    case Call(b) =>
      && b < |s.bufs| && b !in s.inside && !Synced(s.bufs[b]) && s.bufs[b].sector < |s.disk|
      && forall c :: c in s.inside && c < |s.bufs| ==> s.bufs[c].sector != s.bufs[b].sector
    case Complete =>
      && (s.cmd.Reading? || s.cmd.Writing?) && s.cmd.sector < |s.disk|
    case Intr => (s.cmd.ReadReady? || s.cmd.Written?) && s.queue != [] && s.queue[0] < |s.bufs|
    case Return(b) => b in s.inside && b < |s.bufs| && Synced(s.bufs[b])
    case Touch(b, x) => b < |s.bufs| && b !in s.inside
  }

  function Started(queue: seq<nat>, bufs: seq<Buf>): Command {
    if queue != [] && queue[0] < |bufs| then CommandFor(bufs[queue[0]]) else Idle
  }

  ghost function Apply(s: State, a: Action): State
    requires Enabled(s, a)
  {
    match a
    case Call(b) =>
      s.(queue := s.queue + [b], inside := s.inside + {b}, order := s.order + [b],
         cmd := if s.queue == [] then CommandFor(s.bufs[b]) else s.cmd)
    case Complete =>
      if s.cmd.Writing? then s.(disk := s.disk[s.cmd.sector := s.cmd.data], cmd := Written)
      else s.(cmd := ReadReady(s.disk[s.cmd.sector]))
    case Intr =>
      var h := s.queue[0];
      var bufs := s.bufs[h := Finished(s.bufs[h], s.cmd)];
      s.(queue := s.queue[1..], bufs := bufs, cmd := Started(s.queue[1..], bufs), served := s.served + [h])
    case Return(b) => s.(inside := s.inside - {b})
    case Touch(b, x) => s.(bufs := s.bufs[b := x])
  }

  ghost predicate Init(s: State) {
    s.queue == [] && s.cmd == Idle && s.inside == {} && s.order == [] && s.served == []
  }

  ghost predicate InsideOk(s: State, b: nat) {
    && b < |s.bufs| && s.bufs[b].sector < |s.disk|
    && (b in s.queue <==> !Synced(s.bufs[b]))
    && (b !in s.queue ==> s.bufs[b].data == s.disk[s.bufs[b].sector])
  }

  /** The controller works for the first buffer of the queue, or rests. */
  ghost predicate HeadInFlight(s: State) {
    if s.queue == [] then s.cmd == Idle
    else
      && s.queue[0] < |s.bufs| && s.bufs[s.queue[0]].sector < |s.disk|
      && var x := s.bufs[s.queue[0]];
      || s.cmd == CommandFor(x)
      || (x.dirty && s.cmd == Written && s.disk[x.sector] == x.data)
      || (!x.dirty && s.cmd == ReadReady(s.disk[x.sector]))
  }

  ghost predicate OneEach(s: State) {
    && (forall i, j :: 0 <= i < j < |s.queue| ==> s.queue[i] != s.queue[j])
    && (forall i :: 0 <= i < |s.queue| ==> s.queue[i] in s.inside)
    && (forall b, c :: b in s.inside && c in s.inside && b < |s.bufs| && c < |s.bufs| && b != c ==>
         s.bufs[b].sector != s.bufs[c].sector)
  }

  ghost predicate Inv(s: State) {
    && OneEach(s) && HeadInFlight(s) && s.order == s.served + s.queue
    && forall b :: b in s.inside ==> InsideOk(s, b)
  }

  lemma CallInv(s: State, b: nat)
    requires Inv(s) && Enabled(s, Call(b))
    ensures Inv(Apply(s, Call(b)))
  {
    var s' := Apply(s, Call(b));
    assert s.served + s.queue + [b] == s.served + (s.queue + [b]);
    forall c | c in s'.inside ensures InsideOk(s', c) {
      if c != b { assert InsideOk(s, c); }
    }
  }

  lemma CompleteInv(s: State)
    requires Inv(s) && Enabled(s, Complete)
    ensures Inv(Apply(s, Complete))
  {
    var s' := Apply(s, Complete);
    assert InsideOk(s, s.queue[0]);
    forall c | c in s'.inside ensures InsideOk(s', c) { assert InsideOk(s, c); }
  }

  lemma IntrInv(s: State)
    requires Inv(s) && Enabled(s, Intr)
    ensures Inv(Apply(s, Intr))
  {
    var s', h := Apply(s, Intr), s.queue[0];
    assert s.served + s.queue == s.served + [h] + s.queue[1..];
    assert InsideOk(s, h);
    forall c | c in s'.inside ensures InsideOk(s', c) {
      assert InsideOk(s, c);
      assert c in s'.queue <==> c in s.queue && c != h;
    }
    if s'.queue != [] { assert InsideOk(s', s'.queue[0]); }
  }

  lemma InvStep(s: State, a: Action)
    requires Inv(s) && Enabled(s, a)
    ensures Inv(Apply(s, a))
  {
    match a
    case Call(b) => CallInv(s, b);
    case Complete => CompleteInv(s);
    case Intr => IntrInv(s);
    case Return(b) =>
      var s' := Apply(s, a);
      assert InsideOk(s, b);
      forall c | c in s'.inside ensures InsideOk(s', c) { assert InsideOk(s, c); }
    case Touch(b, x) =>
      var s' := Apply(s, a);
      forall c | c in s'.inside ensures InsideOk(s', c) { assert InsideOk(s, c); }
  }

  ghost predicate IsRun(run: seq<State>, trace: seq<Action>) {
    && |run| == |trace| + 1 && Init(run[0])
    && forall i :: 0 <= i < |trace| ==> Enabled(run[i], trace[i]) && run[i + 1] == Apply(run[i], trace[i])
  }

  lemma {:induction false} RunInv(run: seq<State>, trace: seq<Action>, n: nat)
    requires IsRun(run, trace) && n < |run|
    ensures Inv(run[n])
  {
    if n > 0 {
      RunInv(run, trace, n - 1);
      InvStep(run[n - 1], trace[n - 1]);
    }
  }

  /** What the caller can come to see: the head counts as done once the disk has done it. */
  ghost function Abs(s: State): Memory {
    Memory(s.disk,
           if s.queue != [] && s.queue[0] < |s.bufs| && (s.cmd.Written? || s.cmd.ReadReady?)
           then s.bufs[s.queue[0] := Finished(s.bufs[s.queue[0]], s.cmd)] else s.bufs)
  }

  ghost predicate Refines(m: Memory, queue: seq<nat>, a: Action, m': Memory) {
    match a
    case Complete =>
      queue != [] && queue[0] < |m.bufs| && m.bufs[queue[0]].sector < |m.disk| && m' == Sync(m, queue[0])
    case Touch(b, x) => b < |m.bufs| && m' == Memory(m.disk, m.bufs[b := x])
    case _ => m' == m
  }

  /** The queued driver refines the one that does each request at once: the request at the
      head takes effect when the disk completes it, and no other step has an effect. */
  lemma RefinesSync(run: seq<State>, trace: seq<Action>, n: nat)
    requires IsRun(run, trace) && n < |trace|
    ensures Refines(Abs(run[n]), run[n].queue, trace[n], Abs(run[n + 1]))
  {
    RunInv(run, trace, n);
    var s, a := run[n], trace[n];
    if s.queue != [] { assert InsideOk(s, s.queue[0]); }
  }

  /** Requests complete in the order they were made, none is queued twice, and a call returns
      with its buffer valid, clean and equal to its sector. */
  lemma ServedInOrder(run: seq<State>, trace: seq<Action>, n: nat)
    requires IsRun(run, trace) && n < |run|
    ensures run[n].served <= run[n].order && run[n].order == run[n].served + run[n].queue
    ensures forall i, j :: 0 <= i < j < |run[n].queue| ==> run[n].queue[i] != run[n].queue[j]
    ensures n < |trace| && trace[n].Return? ==>
      var x := run[n].bufs[trace[n].b];
      Synced(x) && x.sector < |run[n].disk| && x.data == run[n].disk[x.sector]
  {
    RunInv(run, trace, n);
    if n < |trace| && trace[n].Return? { assert InsideOk(run[n], trace[n].b); }
  }

  /** The disk changes only where a request at the head of the queue completes, and then only if its
      buffer is dirty: exactly that sector gets that buffer's data. */
  lemma DiskChangesByRequests(run: seq<State>, trace: seq<Action>, n: nat)
    requires IsRun(run, trace) && n < |trace|
    ensures !trace[n].Complete? ==> run[n + 1].disk == run[n].disk
    ensures trace[n].Complete? ==>
      && run[n].queue != [] && run[n].queue[0] < |run[n].bufs|
      && var x := run[n].bufs[run[n].queue[0]];
         && x.sector < |run[n].disk|
         && run[n + 1].disk == if x.dirty then run[n].disk[x.sector := x.data] else run[n].disk
  {
    RunInv(run, trace, n);
    if run[n].queue != [] { assert InsideOk(run[n], run[n].queue[0]); }
  }

  /** The call about buffer b that began with x is still waiting, or has been served. */
  ghost predicate Pending(s: State, b: nat, x: Buf) {
    && b in s.inside && b < |s.bufs|
    && if b in s.queue then s.bufs[b] == x
       else s.bufs[b].sector == x.sector && (x.dirty ==> s.bufs[b].data == x.data)
  }

  lemma PendingStep(s: State, a: Action, b: nat, x: Buf)
    requires Inv(s) && Enabled(s, a) && Pending(s, b, x) && a != Return(b)
    ensures Pending(Apply(s, a), b, x)
  {
    var s' := Apply(s, a);
    match a
    case Call(c) => assert b in s'.queue <==> b in s.queue;
    case Intr =>
      assert InsideOk(s, s.queue[0]);
      assert b in s'.queue <==> b in s.queue && b != s.queue[0];
    case _ =>
  }

  lemma {:induction false} PendingRun(run: seq<State>, trace: seq<Action>, m: nat, n: nat, b: nat, x: Buf)
    requires IsRun(run, trace) && m <= n < |run| && Pending(run[m], b, x)
    requires forall i :: m <= i < n ==> trace[i] != Return(b)
    ensures Pending(run[n], b, x)
    decreases n
  {
    if m < n {
      PendingRun(run, trace, m, n - 1, b, x);
      RunInv(run, trace, n - 1);
      PendingStep(run[n - 1], trace[n - 1], b, x);
    }
  }

  /** A call of `iderw` with a dirty buffer, begun at step m, returns at step n with the data it was
      given on the disk and in the buffer; one with a clean buffer returns what the disk holds. */
  lemma WriteReachesDisk(run: seq<State>, trace: seq<Action>, m: nat, n: nat, b: nat)
    requires IsRun(run, trace) && m < n < |trace| && trace[m] == Call(b) && trace[n] == Return(b)
    requires forall i :: m < i < n ==> trace[i] != Return(b)
    ensures var x, y := run[m].bufs[b], run[n].bufs[b];
      && y.sector == x.sector < |run[n].disk| && y.data == run[n].disk[x.sector]
      && (x.dirty ==> run[n].disk[x.sector] == x.data)
  {
    PendingRun(run, trace, m + 1, n, b, run[m].bufs[b]);
    ServedInOrder(run, trace, n);
    RunInv(run, trace, n);
    assert InsideOk(run[n], b);
  }
}

/** The queue of ide.c: buffers linked through `qnext`, with 0 for the null pointer. */
module Ide {
  import opened IdeSpec

  /** The list that starts at `first` runs through the queue and ends in 0. */
  ghost predicate Linked(queue: seq<nat>, first: nat, qnext: seq<nat>) {
    && (forall i :: 0 <= i < |queue| ==> 0 < queue[i] < |qnext|)
    && (forall i, j :: 0 <= i < j < |queue| ==> queue[i] != queue[j])
    && first == At(queue, 0)
    && forall i :: 0 <= i < |queue| ==> LinkAt(queue, qnext, i)
  }

  ghost predicate LinkAt(queue: seq<nat>, qnext: seq<nat>, i: nat)
    requires i < |queue| && queue[i] < |qnext|
  {
    qnext[queue[i]] == At(queue, i + 1)
  }

  function At(queue: seq<nat>, i: nat): nat { if i < |queue| then queue[i] else 0 }

  lemma AppendLinks(queue: seq<nat>, first: nat, qnext: seq<nat>, b: nat)
    requires Linked(queue, first, qnext) && 0 < b < |qnext| && b !in queue && qnext[b] == 0 && queue != []
    ensures Linked(queue + [b], first, qnext[queue[|queue| - 1] := b])
  {
    var q, links := queue + [b], qnext[queue[|queue| - 1] := b];
    forall i | 0 <= i < |q| ensures LinkAt(q, links, i) {
      if i < |queue| { assert LinkAt(queue, qnext, i); }
    }
  }

  lemma ClearLink(queue: seq<nat>, first: nat, qnext: seq<nat>, b: nat)
    requires Linked(queue, first, qnext) && 0 < b < |qnext| && b !in queue
    ensures Linked(queue, first, qnext[b := 0])
  {
    var links := qnext[b := 0];
    forall i | 0 <= i < |queue| ensures LinkAt(queue, links, i) { assert LinkAt(queue, qnext, i); }
  }

  lemma FirstLink(first: nat, qnext: seq<nat>, b: nat)
    requires 0 < b < |qnext| && qnext[b] == 0
    ensures Linked([b], b, qnext)
  {
  }

  lemma PopLinks(queue: seq<nat>, first: nat, qnext: seq<nat>)
    requires Linked(queue, first, qnext) && queue != []
    ensures Linked(queue[1..], qnext[first], qnext)
  {
    var rest := queue[1..];
    forall i | 0 <= i < |rest| ensures LinkAt(rest, qnext, i) { assert LinkAt(queue, qnext, i + 1); }
    assert LinkAt(queue, qnext, 0);
  }

  class Driver {
    var bufs: seq<Buf>
    var idequeue: nat
    var qnext: seq<nat>
    var cmd: Command
    ghost var queue: seq<nat>

    ghost predicate Valid()
      reads this
    {
      |bufs| == |qnext| && Linked(queue, idequeue, qnext)
    }

    /** State s of the state machine has this queue, these buffers and this command. */
    ghost predicate Is(s: State)
      reads this
    {
      bufs == s.bufs && queue == s.queue && cmd == s.cmd
    }

    constructor (count: nat, first: seq<Buf>)
      requires |first| == count + 1
      ensures Valid() && bufs == first && queue == [] && cmd == Idle
    {
      bufs, idequeue, cmd, queue := first, 0, Idle, [];
      qnext := seq(count + 1, _ => 0);
    }

    /** `idestart` */
    method Idestart(b: nat)
      requires b < |bufs|
      modifies this`cmd
      ensures cmd == CommandFor(bufs[b])
    {
      if bufs[b].dirty {
        cmd := Writing(bufs[b].sector, bufs[b].data);
      } else {
        cmd := Reading(bufs[b].sector);
      }
    }

    /** The search for the end of the list in `iderw`: `last` is the buffer whose link is to
        be set, 0 for the head of the queue itself. */
    method FindEnd() returns (last: nat)
      requires Valid()
      ensures last == if queue == [] then 0 else queue[|queue| - 1]
    {
      last := 0;
      var next := idequeue;
      ghost var i := 0;
      while next != 0
        invariant 0 <= i <= |queue| && next == At(queue, i) && last == if i == 0 then 0 else queue[i - 1]
        decreases |queue| - i
      {
        assert LinkAt(queue, qnext, i);
        last := next;
        next := qnext[next];
        i := i + 1;
      }
    }

    /** `iderw` up to its wait: a step of the state machine. */
    method Submit(b: nat, ghost s: State)
      requires Valid() && 0 < b < |bufs| && b !in queue && !Synced(bufs[b])
      modifies this`qnext, this`idequeue, this`cmd, this`queue
      ensures Valid() && queue == old(queue) + [b]
      ensures cmd == if old(queue) == [] then CommandFor(bufs[b]) else old(cmd)
      ensures old(Is(s)) && Enabled(s, Call(b)) ==> Is(Apply(s, Call(b)))
    {
      ClearLink(queue, idequeue, qnext, b);
      qnext := qnext[b := 0];
      Append(b);
      if idequeue == b {
        Idestart(b);
      }
    }

    /** The insertion at the end of the list. */
    method Append(b: nat)
      requires Valid() && 0 < b < |qnext| && b !in queue && qnext[b] == 0
      modifies this`qnext, this`idequeue, this`queue
      ensures Valid() && queue == old(queue) + [b] && (idequeue == b <==> old(queue) == [])
    {
      var last := FindEnd();
      if last == 0 {
        FirstLink(idequeue, qnext, b);
        idequeue := b;
      } else {
        AppendLinks(queue, idequeue, qnext, b);
        qnext := qnext[last := b];
      }
      queue := queue + [b];
    }

    /** `ideintr`, a step of the state machine; with nothing queued the interrupt is ignored. */
    method Ideintr(ghost s: State)
      requires Valid()
      modifies this
      ensures Valid()
      ensures old(queue) == [] ==> queue == [] && bufs == old(bufs) && cmd == old(cmd)
      ensures old(queue) != [] ==>
        var h := old(queue)[0];
        && queue == old(queue)[1..]
        && bufs == old(bufs)[h := Finished(old(bufs)[h], old(cmd))]
        && cmd == Started(queue, bufs)
      ensures old(Is(s)) && Enabled(s, Intr) ==> Is(Apply(s, Intr))
    {
      var b := idequeue;
      if b == 0 {
        return;
      }
      PopLinks(queue, idequeue, qnext);
      idequeue := qnext[b];
      queue := queue[1..];
      if !bufs[b].dirty && cmd.ReadReady? {
        bufs := bufs[b := bufs[b].(data := cmd.data)];
      }
      bufs := bufs[b := bufs[b].(valid := true, dirty := false)];
      cmd := Idle;   // the controller has delivered its result
      if idequeue != 0 {
        Idestart(idequeue);
      }
    }
  }
}
