/** A client program on the interleaved system: it starts one operation after another and waits for
    each, while device, interrupt handler and signals move in any order. Whatever the schedule, a
    program that has finished leaves what its operations leave one after another. */
module Schedule {
  import opened Bytes
  import opened Wrappers
  import opened PageTable
  import opened Coalescing
  import opened CimSram
  import opened IrqDriver
  import opened SerialClient
  import opened PagedCopy
  import opened Reference
  import opened Inference

  /** A burst in either direction, or one compute. */
  datatype Op = ToSram(b: Burst) | ToRam(b: Burst) | Compute

  datatype Program = Finished | Do(op: Op, rest: Program)

  datatype Mems = Mems(ram: seq<byte>, sram: seq<byte>)

  function ChannelOf(op: Op): Channel {
    if op.Compute? then Ctrl else Dma
  }

  /** The ranges of the operation lie in memories with `size` bytes of RAM. */
  predicate Fit(op: Op, size: nat) {
    op.Compute? || (op.b.phys + op.b.len <= size && op.b.sram + op.b.len <= SRAM_SIZE)
  }

  predicate AllFit(p: Program, size: nat) {
    p.Do? ==> Fit(p.op, size) && AllFit(p.rest, size)
  }

  predicate Sound(s: Mems, size: nat) {
    |s.ram| == size && IsSram(s.sram)
  }

  function Effect(op: Op, s: Mems, sh: Shape, size: nat): (r: Mems)
    requires Sound(s, size) && Fit(op, size)
    ensures Sound(r, size)
  {
    match op
    case ToSram(b) => s.(sram := Splice(s.sram, b.sram, s.ram[b.phys..b.phys + b.len]))
    case ToRam(b) => s.(ram := Splice(s.ram, b.phys, s.sram[b.sram..b.sram + b.len]))
    case Compute => s.(sram := Computed(s.sram, sh))
  }

  /** The operations one after another. */
  function Effects(p: Program, s: Mems, sh: Shape, size: nat): (r: Mems)
    requires Sound(s, size) && AllFit(p, size)
    ensures Sound(r, size)
    decreases p
  {
    if p.Finished? then s else Effects(p.rest, Effect(p.op, s, sh, size), sh, size)
  }

  // ---------------------------------------------------------------- the machine

  /** `current` is the operation the client waits for; `acted` says that the device has carried it out. */
  datatype Machine = Machine(sys: System, mems: Mems, current: Option<Op>, acted: bool, todo: Program)

  datatype Step = Start | Act | Other(m: Move)

  function Launch(p: Program, s: Mems): Machine {
    Machine(Fresh(), s, None, false, p)
  }

  predicate Able(w: Machine, e: Step) {
    match e
    case Start => w.current.None? && w.todo.Do?
    case Act => w.current.Some? && !w.acted
    case Other(m) => !m.Begins? && Can(w.sys, m) && (m.Completes? ==> w.acted)
  }

  predicate Proper(w: Machine, size: nat) {
    Sound(w.mems, size) && AllFit(w.todo, size) && (w.current.Some? ==> Fit(w.current.value, size))
  }

  /** START; the device's work, any time between START and completion; any step of the device, the
      handler, the kernel and the client's wait. */
  function Go(w: Machine, e: Step, sh: Shape, size: nat): (r: Machine)
    requires Proper(w, size) && Able(w, e) && Inv(w.sys) && ClientInv(w)
    ensures Proper(r, size)
  {
    match e
    case Start =>
      var op := w.todo.op;
      w.(sys := Does(w.sys, Begins(ChannelOf(op))), current := Some(op), acted := false, todo := w.todo.rest)
    case Act => w.(mems := Effect(w.current.value, w.mems, sh, size), acted := true)
    case Other(m) => w.(sys := Does(w.sys, m), current := if m.TakesCount? then None else w.current)
  }

  /** Exactly the channel of the current operation is busy, and it is in flight until carried out. The
      handler is at work only on events it has seen. */
  predicate ClientInv(w: Machine) {
    && (forall c: Channel :: !w.sys.phase.At(c).Ready? <==> w.current.Some? && c == ChannelOf(w.current.value))
    && (w.current.Some? && !w.acted ==> ChannelOf(w.current.value) in w.sys.inFlight)
    && (!w.sys.k.isr.Idle? ==> w.sys.k.isr.status != {})
  }

  lemma StartInv(w: Machine, sh: Shape, size: nat)
    requires Proper(w, size) && Able(w, Start) && Inv(w.sys) && ClientInv(w)
    ensures Inv(Go(w, Start, sh, size).sys) && ClientInv(Go(w, Start, sh, size))
  {
    var c := ChannelOf(w.todo.op);
    assert w.sys.phase.At(c).Ready?;
    InvStep(w.sys, Begins(c));
  }

  lemma OtherInv(w: Machine, m: Move, sh: Shape, size: nat)
    requires Proper(w, size) && Able(w, Other(m)) && Inv(w.sys) && ClientInv(w)
    ensures Inv(Go(w, Other(m), sh, size).sys) && ClientInv(Go(w, Other(m), sh, size))
    ensures m.TakesCount? ==> w.acted && w.current.Some? && w.sys.k.count.At(m.c) == 1
    ensures m.TakesCount? ==> m.c == ChannelOf(w.current.value)
  {
    InvStep(w.sys, m);
    if m.TakesCount? {
      assert ChannelInv(w.sys, m.c);
      assert !w.sys.phase.At(m.c).Ready?;
    }
  }

  // ---------------------------------------------------------------- every run

  datatype Trace = Nil | Snoc(past: Trace, e: Step)

  /** A run of `p` from the memories `s`; its states are those of `At`. */
  predicate Runs(t: Trace, p: Program, s: Mems, sh: Shape, size: nat)
    requires Sound(s, size) && AllFit(p, size)
    decreases t, 0
  {
    t.Snoc? ==> Runs(t.past, p, s, sh, size) && Able(At(t.past, p, s, sh, size), t.e)
  }

  function At(t: Trace, p: Program, s: Mems, sh: Shape, size: nat): (w: Machine)
    requires Sound(s, size) && AllFit(p, size) && Runs(t, p, s, sh, size)
    ensures Proper(w, size) && Inv(w.sys) && ClientInv(w)
    decreases t, 1
  {
    match t
    case Nil => Launch(p, s)
    case Snoc(past, e) =>
      var w := At(past, p, s, sh, size);
      GoInv(w, e, sh, size);
      Go(w, e, sh, size)
  }

  lemma GoInv(w: Machine, e: Step, sh: Shape, size: nat)
    requires Proper(w, size) && Able(w, e) && Inv(w.sys) && ClientInv(w)
    ensures Inv(Go(w, e, sh, size).sys) && ClientInv(Go(w, e, sh, size))
  {
    match e
    case Start => StartInv(w, sh, size);
    case Act =>
    case Other(m) => OtherInv(w, m, sh, size);
  }

  /** Where the memories will be when the rest of the program has been carried out. */
  function Outcome(w: Machine, sh: Shape, size: nat): Mems
    requires Proper(w, size)
  {
    Effects(w.todo, if w.current.Some? && !w.acted then Effect(w.current.value, w.mems, sh, size) else w.mems, sh, size)
  }

  lemma OutcomeStep(w: Machine, e: Step, sh: Shape, size: nat)
    requires Proper(w, size) && Able(w, e) && Inv(w.sys) && ClientInv(w)
    ensures Outcome(Go(w, e, sh, size), sh, size) == Outcome(w, sh, size)
  {
    if e.Other? {
      OtherInv(w, e.m, sh, size);
    }
  }

  /** In every state of every run the rest of the program leads to the outcome of the program run in
      order, and so a finished program has left just that. */
  lemma {:induction false} AnySchedule(t: Trace, p: Program, s: Mems, sh: Shape, size: nat)
    requires Sound(s, size) && AllFit(p, size) && Runs(t, p, s, sh, size)
    ensures Outcome(At(t, p, s, sh, size), sh, size) == Effects(p, s, sh, size)
    ensures var w := At(t, p, s, sh, size);
            w.current.None? && w.todo.Finished? ==> w.mems == Effects(p, s, sh, size)
  {
    if t.Snoc? {
      AnySchedule(t.past, p, s, sh, size);
      OutcomeStep(At(t.past, p, s, sh, size), t.e, sh, size);
    }
  }

  /** No wait of the program ever reports a protocol error. */
  lemma WaitsSucceed(t: Trace, p: Program, s: Mems, sh: Shape, size: nat, c: Channel)
    requires Sound(s, size) && AllFit(p, size) && Runs(t, p, s, sh, size)
    requires Able(At(t, p, s, sh, size), Other(TakesCount(c)))
    ensures var w := At(t, p, s, sh, size);
            && w.sys.k.count.At(c) == 1 && w.acted && w.current.Some?
            && c == if w.current.value.Compute? then Ctrl else Dma
  {
    OtherInv(At(t, p, s, sh, size), TakesCount(c), sh, size);
  }

  // ---------------------------------------------------------------- no schedule is stuck

  function Length(p: Program): nat {
    if p.Finished? then 0 else 1 + Length(p.rest)
  }

  function PhaseRank(ph: Phase): nat {
    match ph
    case Ready => 0
    case Started => 3
    case Reading => 2
    case Observed => 1
  }

  function Effort(s: System, c: Channel): nat {
    Rank(s, c) + PhaseRank(s.phase.At(c))
  }

  /** Steps that are still to be taken if no signal interrupts the client. */
  function Left(w: Machine): nat {
    12 * Length(w.todo) +
    if w.current.None? then 0
    else
      var c := ChannelOf(w.current.value);
      One(!w.acted) + Effort(w.sys, c)
  }

  function Useful(w: Machine): Step {
    if w.current.None? then Start
    else if !w.acted then Act
    else
      var c := ChannelOf(w.current.value);
      if Rank(w.sys, c) > 1 then Other(Forward(w.sys, c))
      else if w.sys.phase.At(c).Started? then Other(CallsRead(c))
      else if w.sys.phase.At(c).Reading? then Other(SeesCount(c))
      else Other(TakesCount(c))
  }

  /** In every state of every run, unless the program has finished, some step is possible that brings
      it closer to its end. */
  lemma NeverStuck(t: Trace, p: Program, s: Mems, sh: Shape, size: nat)
    requires Sound(s, size) && AllFit(p, size) && Runs(t, p, s, sh, size)
    ensures var w := At(t, p, s, sh, size);
            (w.current.None? && w.todo.Finished?) ||
            (Able(w, Useful(w)) && Left(Go(w, Useful(w), sh, size)) < Left(w))
  {
    var w := At(t, p, s, sh, size);
    if w.current.Some? && w.acted {
      UsefulMove(w, ChannelOf(w.current.value));
    }
  }

  lemma UsefulMove(w: Machine, c: Channel)
    requires Inv(w.sys) && ClientInv(w) && w.current.Some? && w.acted && c == ChannelOf(w.current.value)
    ensures Able(w, Useful(w)) && Useful(w).Other?
    ensures var m := Useful(w).m;
            m == TakesCount(c) ||
            Effort(Does(w.sys, m), c) < Effort(w.sys, c)
  {
    assert ChannelInv(w.sys, c) && !w.sys.phase.At(c).Ready?;
  }

  // ---------------------------------------------------------------- how long a run can be

  /** A signal interrupts the client's wait. */
  predicate IsSignal(e: Step) {
    e.Other? && e.m.GetsSignal?
  }

  /** A step other than a signal brings the program closer to its end, unless it changes nothing; a signal
      sets it back by one. */
  predicate Advances(w: Machine, e: Step, r: Machine) {
    if IsSignal(e) then Left(r) == Left(w) + 1 else r == w || Left(r) < Left(w)
  }

  lemma StepAdvances(w: Machine, e: Step, sh: Shape, size: nat)
    requires Proper(w, size) && Able(w, e) && Inv(w.sys) && ClientInv(w)
    ensures Advances(w, e, Go(w, e, sh, size))
  {
    if e.Other? {
      if w.current.None? {
        IdleMove(w, e.m);
      } else {
        BusyMove(w, e.m, ChannelOf(w.current.value));
      }
    }
  }

  /** Between operations no event is on its way and nobody waits. */
  lemma IdleMove(w: Machine, m: Move)
    requires Able(w, Other(m)) && Inv(w.sys) && ClientInv(w) && w.current.None?
    ensures Does(w.sys, m) == w.sys && m.Samples?
  {
    forall c: Channel
      ensures w.sys.phase.At(c).Ready? && c !in w.sys.inFlight && c !in w.sys.k.pending
      ensures w.sys.k.isr.Acked? ==> c !in w.sys.k.isr.status
    {
      assert ChannelInv(w.sys, c);
    }
    assert w.sys.k.pending == {};
    assert w.sys.k.isr.Idle?;
  }

  lemma BusyMove(w: Machine, m: Move, c: Channel)
    requires Able(w, Other(m)) && Inv(w.sys) && ClientInv(w) && w.current.Some? && c == ChannelOf(w.current.value)
    ensures if m.GetsSignal? then Effort(Does(w.sys, m), c) == Effort(w.sys, c) + 1
            else m == TakesCount(c) || Does(w.sys, m) == w.sys || Effort(Does(w.sys, m), c) < Effort(w.sys, c)
    ensures m.TakesCount? ==> m == TakesCount(c) && w.acted
  {
    assert ChannelInv(w.sys, c) && !w.sys.phase.At(c).Ready?;
    forall d: Channel | d != c
      ensures w.sys.phase.At(d).Ready? && d !in w.sys.inFlight && d !in w.sys.k.pending
      ensures w.sys.k.isr.Acked? ==> d !in w.sys.k.isr.status
    {
      assert ChannelInv(w.sys, d);
    }
    if !w.sys.k.isr.Idle? {
      var d :| d in w.sys.k.isr.status;
      assert d == c;
    }
  }

  function Signals(t: Trace): nat {
    if t.Nil? then 0 else Signals(t.past) + One(IsSignal(t.e))
  }

  /** Steps of a run that change something, without the signals. */
  function Moved(t: Trace, p: Program, s: Mems, sh: Shape, size: nat): nat
    requires Sound(s, size) && AllFit(p, size) && Runs(t, p, s, sh, size)
    decreases t
  {
    if t.Nil? then 0
    else
      var w := At(t.past, p, s, sh, size);
      Moved(t.past, p, s, sh, size) + One(!IsSignal(t.e) && Go(w, t.e, sh, size) != w)
  }

  /** A run with `k` signals has at most `12 * |p| + k` other steps that change something; what is still to
      do is within the difference. With `NeverStuck`: a program that keeps taking steps finishes, unless
      signals never stop. */
  lemma {:induction false} RunsEnd(t: Trace, p: Program, s: Mems, sh: Shape, size: nat)
    requires Sound(s, size) && AllFit(p, size) && Runs(t, p, s, sh, size)
    ensures Moved(t, p, s, sh, size) + Left(At(t, p, s, sh, size)) <= 12 * Length(p) + Signals(t)
  {
    if t.Snoc? {
      var w := At(t.past, p, s, sh, size);
      RunsEnd(t.past, p, s, sh, size);
      StepAdvances(w, t.e, sh, size);
      assert Advances(w, t.e, At(t, p, s, sh, size));
    }
  }

  // ---------------------------------------------------------------- what paged copies amount to

  /** The bursts of a copy to SRAM, then `k`. */
  function Writes(p: Plan, k: Program): Program {
    if p.Done? then k else Do(ToSram(p.burst), Writes(p.rest, k))
  }

  function Reads(p: Plan, k: Program): Program {
    if p.Done? then k else Do(ToRam(p.burst), Reads(p.rest, k))
  }

  /** `p` moves exactly the buffer `[v, v+len)`, from or to SRAM at `at`. */
  predicate Moves(a: Space, v: nat, at: nat, len: nat, p: Plan, size: nat) {
    Sane(a) && WalkEnd(a, v, at, p) == Some(v + len) && InRam(a, v, len, size) && at + len <= SRAM_SIZE
  }

  lemma FirstMove(a: Space, v: nat, at: nat, len: nat, p: Plan, size: nat, c: nat)
    requires Moves(a, v, at, len, p, size) && p.Then? && c == p.burst.len
    ensures p.burst == Burst(Phys(a, v), at, c) && 0 < c <= len && Contiguous(a, v, c)
    ensures Fit(ToSram(p.burst), size) && Fit(ToRam(p.burst), size)
    ensures Moves(a, v + c, at + c, len - c, p.rest, size)
  {
    WalkTotal(a, v, at, p);
    assert Phys(a, v + c - 1) == Phys(a, v) + (v + c - 1 - v);
  }

  lemma NoMoves(a: Space, v: nat, at: nat, len: nat, p: Plan, size: nat)
    requires Moves(a, v, at, len, p, size) && p.Done?
    ensures len == 0
  {
  }

  lemma {:induction false} ReadsFit(a: Space, v: nat, at: nat, len: nat, p: Plan, k: Program, size: nat)
    requires Moves(a, v, at, len, p, size) && AllFit(k, size)
    ensures AllFit(Reads(p, k), size)
    decreases p
  {
    if p.Then? {
      FirstMove(a, v, at, len, p, size, p.burst.len);
      ReadsFit(a, v + p.burst.len, at + p.burst.len, len - p.burst.len, p.rest, k, size);
    }
  }

  /** Running `q` from `s` amounts to running `k` from `r`. */
  predicate AmountsTo(q: Program, s: Mems, k: Program, r: Mems, sh: Shape, size: nat) {
    && Sound(s, size) && AllFit(q, size) && Sound(r, size) && AllFit(k, size)
    && Effects(q, s, sh, size) == Effects(k, r, sh, size)
  }

  lemma AmountsFirst(op: Op, rest: Program, s: Mems, m: Mems, k: Program, r: Mems, sh: Shape, size: nat)
    requires Sound(s, size) && Fit(op, size) && m == Effect(op, s, sh, size) && AmountsTo(rest, m, k, r, sh, size)
    ensures AmountsTo(Do(op, rest), s, k, r, sh, size)
  {
  }

  /** The bursts of a copy to SRAM put the program's bytes there. */
  lemma {:induction false} WritesMean(a: Space, v: nat, at: nat, len: nat, p: Plan, k: Program, s: Mems, sh: Shape,
                                      size: nat, r: Mems)
    requires Moves(a, v, at, len, p, size) && AllFit(k, size) && Sound(s, size)
    requires r == Mems(s.ram, Splice(s.sram, at, Gather(s.ram, a, v, len)))
    ensures AmountsTo(Writes(p, k), s, k, r, sh, size)
    decreases p
  {
    if p.Done? {
      NoMoves(a, v, at, len, p, size);
      assert r.sram == s.sram;
    } else {
      var c, q := p.burst.len, Phys(a, v);
      FirstMove(a, v, at, len, p, size, c);
      var m := Effect(ToSram(p.burst), s, sh, size);
      WriteJoins(a, v, at, len, c, s.ram, s.sram, q, m.sram);
      WritesMean(a, v + c, at + c, len - c, p.rest, k, m, sh, size, r);
      AmountsFirst(ToSram(p.burst), Writes(p.rest, k), s, m, k, r, sh, size);
    }
  }

  lemma WriteJoins(a: Space, v: nat, at: nat, len: nat, c: nat, ram: seq<byte>, m: seq<byte>, p: nat, m1: seq<byte>)
    requires Sane(a) && InRam(a, v, len, |ram|) && c <= len && Contiguous(a, v, c) && p == Phys(a, v) && p + c <= |ram|
    requires at + len <= |m| && m1 == Splice(m, at, ram[p..p + c])
    ensures Splice(m1, at + c, Gather(ram, a, v + c, len - c)) == Splice(m, at, Gather(ram, a, v, len))
  {
    var x, y := ram[p..p + c], Gather(ram, a, v + c, len - c);
    GatherPrepend(ram, a, v, len, c, p, x, y);
    SpliceAppend(m, at, x, y);
  }

  lemma GatherPrepend(ram: seq<byte>, a: Space, v: nat, len: nat, c: nat, p: nat, x: seq<byte>, y: seq<byte>)
    requires Sane(a) && InRam(a, v, len, |ram|) && c <= len && Contiguous(a, v, c) && p == Phys(a, v) && p + c <= |ram|
    requires x == ram[p..p + c] && y == Gather(ram, a, v + c, len - c)
    ensures Gather(ram, a, v, len) == x + y
  {
    var b := Gather(ram, a, v, len);
    forall i | 0 <= i < len
      ensures (x + y)[i] == b[i]
    {
      if i < c {
        assert Phys(a, v + i) == p + (v + i - v);
      } else {
        assert v + c + (i - c) == v + i;
      }
    }
    assert x + y == b;
  }

  /** The bursts of a copy from SRAM leave what storing the bytes one by one leaves. */
  lemma {:induction false} ReadsMean(a: Space, v: nat, at: nat, len: nat, p: Plan, k: Program, s: Mems, sh: Shape,
                                     size: nat, b: seq<byte>, r: Mems)
    requires Moves(a, v, at, len, p, size) && AllFit(k, size) && Sound(s, size)
    requires Receives(a, v, s, b, r, size) && at + len <= |s.sram| && b == s.sram[at..at + len]
    ensures AmountsTo(Reads(p, k), s, k, r, sh, size)
    decreases p
  {
    if p.Done? {
      NoMoves(a, v, at, len, p, size);
    } else {
      var c := p.burst.len;
      FirstMove(a, v, at, len, p, size, c);
      var y, m := s.sram[at + c..at + c + (len - c)], Effect(ToRam(p.burst), s, sh, size);
      ReceivesRest(a, v, at, len, c, p.burst, s, sh, size, b, y, m, r);
      ReadsMean(a, v + c, at + c, len - c, p.rest, k, m, sh, size, y, r);
      AmountsFirst(ToRam(p.burst), Reads(p.rest, k), s, m, k, r, sh, size);
    }
  }

  /** `r` is `s` after storing `b` at `v`. */
  predicate Receives(a: Space, v: nat, s: Mems, b: seq<byte>, r: Mems, size: nat) {
    && Sane(a) && InRam(a, v, |b|, size) && |s.ram| == size
    && r == Mems(Scatter(s.ram, a, v, b), s.sram)
  }

  lemma ReceivesRest(a: Space, v: nat, at: nat, len: nat, c: nat, e: Burst, s: Mems, sh: Shape, size: nat,
                     b: seq<byte>, y: seq<byte>, m: Mems, r: Mems)
    requires Receives(a, v, s, b, r, size) && Sound(s, size) && Fit(ToRam(e), size) && at + len <= |s.sram|
    requires c <= len && Contiguous(a, v, c) && e == Burst(Phys(a, v), at, c) && m == Effect(ToRam(e), s, sh, size)
    requires b == s.sram[at..at + len] && y == s.sram[at + c..at + c + (len - c)]
    ensures Receives(a, v + c, m, y, r, size)
  {
    ReadFirst(a, v, at, len, c, s.ram, s.sram, b, y, m.ram);
  }

  /** After the first burst, storing the rest of the bytes completes the buffer. */
  lemma ReadFirst(a: Space, v: nat, at: nat, len: nat, c: nat, ram: seq<byte>, sram: seq<byte>,
                  b: seq<byte>, y: seq<byte>, r: seq<byte>)
    requires Sane(a) && InRam(a, v, len, |ram|) && c <= len && Contiguous(a, v, c)
    requires Phys(a, v) + c <= |ram| && at + len <= |sram| && r == Splice(ram, Phys(a, v), sram[at..at + c])
    requires b == sram[at..at + len] && y == sram[at + c..at + c + (len - c)]
    ensures InRam(a, v + c, |y|, |ram|) && Scatter(r, a, v + c, y) == Scatter(ram, a, v, b)
  {
    assert b == sram[at..at + c] + y;
    ReadJoins(a, v, ram, Phys(a, v), sram[at..at + c], y, b, r);
  }

  lemma ReadJoins(a: Space, v: nat, ram: seq<byte>, p: nat, x: seq<byte>, y: seq<byte>, b: seq<byte>, r: seq<byte>)
    requires Sane(a) && b == x + y && InRam(a, v, |b|, |ram|) && Contiguous(a, v, |x|) && p == Phys(a, v)
    requires p + |x| <= |ram| && r == Splice(ram, p, x)
    ensures InRam(a, v + |x|, |y|, |ram|) && Scatter(r, a, v + |x|, y) == Scatter(ram, a, v, b)
  {
    ScatterFirst(a, v, ram, p, x);
    ScatterSplit(ram, a, v, x, y);
  }

  lemma ScatterFirst(a: Space, v: nat, ram: seq<byte>, p: nat, x: seq<byte>)
    requires Sane(a) && InRam(a, v, |x|, |ram|) && Contiguous(a, v, |x|) && p == Phys(a, v) && p + |x| <= |ram|
    ensures Scatter(ram, a, v, x) == Splice(ram, p, x)
  {
    ScatterRun(ram, a, v, [], x);
    assert [] + x == x;
  }

  // ---------------------------------------------------------------- inference under any schedule

  /** The bursts that the library issues for a buffer. */
  function CopyOf(a: Space, v: nat, at: nat, len: nat): Plan
    requires Sane(a)
  {
    CopyPlan(a, v, at, len, false)
  }

  lemma AvailableMoves(a: Space, v: nat, at: nat, len: nat, size: nat)
    requires Sane(a) && Backed(a, size) && Available(a, v, len) && at + len <= SRAM_SIZE
    ensures Moves(a, v, at, len, CopyOf(a, v, at, len), size)
  {
    BackedInRam(a, v, len, size);
    GreedyWalks(a, v, at, len);
    ReachIff(a, v, len, len);
  }

  datatype Query = Query(a: Space, sh: Shape, vw: nat, vb: nat, vx: nat, vout: nat)

  /** Its buffers are available in a memory of `size` bytes, and the layer fits the SRAM. */
  predicate Possible(j: Query, size: nat) {
    && Sane(j.a) && Backed(j.a, size) && Fits(j.sh)
    && AllAvailable(j.a, j.sh, j.vw, j.vb, j.vx) && Available(j.a, j.vout, 4 * j.sh.m)
  }

  /** Weights, biases, input, one compute, and the logits back. */
  function InferenceOf(j: Query): Program
    requires Sane(j.a)
  {
    Writes(CopyOf(j.a, j.vw, WEIGHT_BASE, j.sh.m * j.sh.n),
      Writes(CopyOf(j.a, j.vb, BiasBase(j.sh), 4 * j.sh.m),
        Writes(CopyOf(j.a, j.vx, InputBase(j.sh), j.sh.n), Do(Compute, Tail(j)))))
  }

  function Tail(j: Query): Program
    requires Sane(j.a)
  {
    Reads(CopyOf(j.a, j.vout, OutputBase(j.sh), 4 * j.sh.m), Finished)
  }

  /** The memories when the compute starts. */
  lemma StagingMeans(j: Query, k: Program, s: Mems, size: nat) returns (m: seq<byte>)
    requires Possible(j, size) && AllFit(k, size) && Sound(s, size)
    ensures var p := Writes(CopyOf(j.a, j.vw, WEIGHT_BASE, j.sh.m * j.sh.n),
                       Writes(CopyOf(j.a, j.vb, BiasBase(j.sh), 4 * j.sh.m),
                         Writes(CopyOf(j.a, j.vx, InputBase(j.sh), j.sh.n), k)));
            AllFit(p, size) && IsSram(m) && Effects(p, s, j.sh, size) == Effects(k, s.(sram := m), j.sh, size)
    ensures Holds(m, j.sh, UserData(s.ram, j.a, j.sh, j.vw, j.vb, j.vx))
  {
    var a, sh := j.a, j.sh;
    var u := UserData(s.ram, a, sh, j.vw, j.vb, j.vx);
    var pw, pb, px := CopyOf(a, j.vw, WEIGHT_BASE, sh.m * sh.n), CopyOf(a, j.vb, BiasBase(sh), 4 * sh.m),
                      CopyOf(a, j.vx, InputBase(sh), sh.n);
    AvailableMoves(a, j.vw, WEIGHT_BASE, sh.m * sh.n, size);
    AvailableMoves(a, j.vb, BiasBase(sh), 4 * sh.m, size);
    AvailableMoves(a, j.vx, InputBase(sh), sh.n, size);
    var m1 := Splice(s.sram, WEIGHT_BASE, u.w);
    var m2 := Splice(m1, BiasBase(sh), u.b);
    m := Splice(m2, InputBase(sh), u.x);
    WritesMean(a, j.vx, InputBase(sh), sh.n, px, k, Mems(s.ram, m2), sh, size, Mems(s.ram, m));
    WritesMean(a, j.vb, BiasBase(sh), 4 * sh.m, pb, Writes(px, k), Mems(s.ram, m1), sh, size, Mems(s.ram, m2));
    WritesMean(a, j.vw, WEIGHT_BASE, sh.m * sh.n, pw, Writes(pb, Writes(px, k)), s, sh, size, Mems(s.ram, m1));
    Staged(s.sram, sh, u, m1, m2, m);
  }

  /** Inference as one program, run in order: the logits of the data are in the output buffer. */
  lemma InferenceMeans(j: Query, s: Mems, size: nat)
    requires Possible(j, size) && Sound(s, size)
    ensures AllFit(InferenceOf(j), size)
    ensures exists m: seq<byte> :: IsSram(m) && Holds(m, j.sh, UserData(s.ram, j.a, j.sh, j.vw, j.vb, j.vx)) &&
              Effects(InferenceOf(j), s, j.sh, size).ram == Store(s.ram, j.a, j.vout, LogitBytes(m, j.sh, j.sh.m))
  {
    var o, len := OutputBase(j.sh), 4 * j.sh.m;
    AvailableMoves(j.a, j.vout, o, len, size);
    ReadsFit(j.a, j.vout, o, len, CopyOf(j.a, j.vout, o, len), Finished, size);
    var m := StagingMeans(j, Do(Compute, Tail(j)), s, size);
    var r := Computed(m, j.sh);
    OutputBytes(m, j.sh, o, len, r);
    var ram := Store(s.ram, j.a, j.vout, LogitBytes(m, j.sh, j.sh.m));
    ReadsMean(j.a, j.vout, o, len, CopyOf(j.a, j.vout, o, len), Finished, Mems(s.ram, r), j.sh, size, r[o..o + len],
              Mems(ram, r));
    assert Effects(InferenceOf(j), s, j.sh, size).ram == ram;
  }

  /** Inference under any interleaving of the client, the device, the interrupt handler and signals:
      when the program has finished, an output buffer without aliases holds the CPU's logits of the
      data, and memory outside its frames is as before. */
  lemma InferAnySchedule(j: Query, s: Mems, size: nat, t: Trace)
    requires Possible(j, size) && Sound(s, size)
    ensures AllFit(InferenceOf(j), size)
    ensures Runs(t, InferenceOf(j), s, j.sh, size) && Injective(j.a, j.vout, 4 * j.sh.m) ==>
              var w := At(t, InferenceOf(j), s, j.sh, size);
              w.current.None? && w.todo.Finished? ==> Answered(j, s.ram, w.mems.ram)
  {
    InferenceMeans(j, s, size);
    if Runs(t, InferenceOf(j), s, j.sh, size) && Injective(j.a, j.vout, 4 * j.sh.m) {
      AnySchedule(t, InferenceOf(j), s, j.sh, size);
      var u := UserData(s.ram, j.a, j.sh, j.vw, j.vb, j.vx);
      var m: seq<byte> :| IsSram(m) && Holds(m, j.sh, u) &&
        Effects(InferenceOf(j), s, j.sh, size).ram == Store(s.ram, j.a, j.vout, LogitBytes(m, j.sh, j.sh.m));
      StoreMeans(s.ram, j.a, j.vout, LogitBytes(m, j.sh, j.sh.m));
      LogitBytesAreLogits(m, j.sh, u);
    }
  }

  predicate Answered(j: Query, before: seq<byte>, after: seq<byte>)
    requires |before| == |after| && Possible(j, |before|)
  {
    && AreLogits(Load(after, j.a, j.vout, 4 * j.sh.m), Clamped(UserData(before, j.a, j.sh, j.vw, j.vb, j.vx)), j.sh)
    && forall q :: 0 <= q < |before| && OutsideFrames(j.a, j.vout, 4 * j.sh.m, q) ==> after[q] == before[q]
  }
}
