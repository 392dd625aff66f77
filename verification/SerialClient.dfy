/** Clients that wait for every operation before they start the next one, on top of the
    interleaved driver: each wait sees exactly one completion, and no channel can hold up another. */
module SerialClient {
  import opened Bytes
  import opened IrqDriver

  /** A client between operations, after START, blocked in `read()`, or past its wait condition. */
  datatype Phase = Ready | Started | Reading | Observed

  datatype System = System(k: Kernel, inFlight: set<Channel>, phase: Tri<Phase>)

  datatype Move =
    | Begins(c: Channel)
    | Completes(c: Channel)
    | Samples
    | Acks
    | Counts
    | CallsRead(c: Channel)
    | GetsSignal(c: Channel)
    | SeesCount(c: Channel)
    | TakesCount(c: Channel)

  function Fresh(): System {
    System(Boot(), {}, Tri(Ready, Ready, Ready))
  }

  predicate Can(s: System, m: Move) {
    match m
    case Begins(c) => s.phase.At(c).Ready?
    case Completes(c) => c in s.inFlight
    case Samples => s.k.isr.Idle?
    case Acks => s.k.isr.Sampled?
    case Counts => s.k.isr.Acked?
    case CallsRead(c) => s.phase.At(c).Started?
    case GetsSignal(c) => s.phase.At(c).Reading?
    case SeesCount(c) => s.phase.At(c).Reading? && s.k.count.At(c) != 0
    case TakesCount(c) => s.phase.At(c).Observed?
  }

  /** START, completion of the engine, the handler's steps, and the client's read with retry. */
  function Does(s: System, m: Move): System
    requires Can(s, m)
  {
    match m
    case Begins(c) => s.(inFlight := s.inFlight + {c}, phase := s.phase.Put(c, Started))
    case Completes(c) => s.(inFlight := s.inFlight - {c}, k := RaiseIrq(s.k, c))
    case Samples => s.(k := SampleStatus(s.k))
    case Acks => s.(k := AckStatus(s.k))
    case Counts => s.(k := CountStatus(s.k))
    case CallsRead(c) => s.(phase := s.phase.Put(c, Reading))
    case GetsSignal(c) => s.(phase := s.phase.Put(c, Started))
    case SeesCount(c) => s.(phase := s.phase.Put(c, Observed))
    case TakesCount(c) => s.(k := TakeCount(s.k, c), phase := s.phase.Put(c, Ready))
  }

  datatype Run = Begin | Then(past: Run, m: Move)

  predicate Legal(run: Run)
    decreases run, 0
  {
    run.Then? ==> Legal(run.past) && Can(After(run.past), run.m)
  }

  function After(run: Run): System
    requires Legal(run)
    decreases run, 1
  {
    match run
    case Begin => Fresh()
    case Then(past, m) => Does(After(past), m)
  }

  // ---------------------------------------------------------------- one token per operation

  /** Completions of channel `c` on their way: in flight, pending, held by the handler, counted. */
  function Tokens(s: System, c: Channel): nat {
    One(c in s.inFlight) + One(c in s.k.pending) + One(s.k.isr.Acked? && c in s.k.isr.status) + s.k.count.At(c)
  }

  predicate Inv(s: System) {
    && (s.k.isr.Sampled? ==> s.k.isr.status <= s.k.pending)
    && forall c: Channel :: ChannelInv(s, c)
  }

  predicate ChannelInv(s: System, c: Channel) {
    && Tokens(s, c) == One(!s.phase.At(c).Ready?)
    && (s.phase.At(c).Observed? ==> s.k.count.At(c) == 1)
  }

  lemma InvStep(s: System, m: Move)
    requires Inv(s) && Can(s, m)
    ensures Inv(Does(s, m))
  {
    forall c: Channel
      ensures ChannelInv(Does(s, m), c)
    {
      assert ChannelInv(s, c);
      ChannelStep(s, m, c);
    }
  }

  lemma ChannelStep(s: System, m: Move, c: Channel)
    requires Inv(s) && ChannelInv(s, c) && Can(s, m)
    ensures ChannelInv(Does(s, m), c)
  {
    match m {
      case Counts => CountAt(s.k, c);
      case Begins(d) => OtherPhase(s, m, d, c);
      case CallsRead(d) => OtherPhase(s, m, d, c);
      case GetsSignal(d) => OtherPhase(s, m, d, c);
      case SeesCount(d) => OtherPhase(s, m, d, c);
      case TakesCount(d) => OtherPhase(s, m, d, c);
      case _ =>
    }
  }

  lemma OtherPhase(s: System, m: Move, d: Channel, c: Channel)
    requires Can(s, m)
    requires m == Begins(d) || m == CallsRead(d) || m == GetsSignal(d) || m == SeesCount(d) || m == TakesCount(d)
    ensures d != c ==> Does(s, m).phase.At(c) == s.phase.At(c) && Does(s, m).k.count.At(c) == s.k.count.At(c)
  {
  }

  /** Safety over whole runs: every outstanding operation has exactly one completion on its way,
      and no other channel state has any. */
  lemma {:induction false} OneTokenEach(run: Run)
    requires Legal(run)
    ensures Inv(After(run))
  {
    if run.Then? {
      OneTokenEach(run.past);
      InvStep(After(run.past), run.m);
    }
  }

  /** A wait that takes an event takes exactly one, signals or not: it never reports a protocol
      error. */
  lemma WaitSeesExactlyOne(run: Run, c: Channel)
    requires Legal(run) && Can(After(run), TakesCount(c))
    ensures After(run).k.count.At(c) == 1
  {
    OneTokenEach(run);
    assert ChannelInv(After(run), c);
  }

  // ---------------------------------------------------------------- nobody is held up

  /** Steps until the completion of an outstanding operation on `c` is counted. */
  function Rank(s: System, c: Channel): nat {
    if c in s.inFlight then 7
    else if c in s.k.pending then
      match s.k.isr
      case Idle => 4
      case Sampled(status) => if c in status then 3 else 6
      case Acked(_) => 5
    else if s.k.isr.Acked? && c in s.k.isr.status then 2
    else 1
  }

  /** The device or handler step that moves the completion on `c` forward. */
  function Forward(s: System, c: Channel): Move {
    if c in s.inFlight then Completes(c)
    else match s.k.isr
      case Idle => Samples
      case Sampled(_) => Acks
      case Acked(_) => Counts
  }

  /** While an operation is outstanding, nothing that any channel, client, signal or the handler
      does moves its completion back, and until it is counted some step is possible that moves it
      forward. */
  lemma CompletionAdvances(run: Run, c: Channel, m: Move)
    requires Legal(run) && !After(run).phase.At(c).Ready?
    ensures Can(After(run), m) && m != TakesCount(c) ==> Rank(Does(After(run), m), c) <= Rank(After(run), c)
    ensures Rank(After(run), c) > 1 ==>
              Can(After(run), Forward(After(run), c)) &&
              Rank(Does(After(run), Forward(After(run), c)), c) < Rank(After(run), c)
    ensures Rank(After(run), c) == 1 <==> After(run).k.count.At(c) == 1
  {
    var s := After(run);
    OneTokenEach(run);
    assert ChannelInv(s, c);
    if Can(s, m) && m != TakesCount(c) {
      NeverBack(s, m, c);
    }
  }

  lemma NeverBack(s: System, m: Move, c: Channel)
    requires Inv(s) && ChannelInv(s, c) && Can(s, m) && !s.phase.At(c).Ready? && m != TakesCount(c)
    ensures Rank(Does(s, m), c) <= Rank(s, c)
  {
  }
}
