/** The interrupt-counting kernel driver: its atomic steps, and the accounting that holds however
    the interrupt handler and any number of readers interleave. */
module IrqDriver {
  import opened Bytes

  datatype Channel = Ctrl | Dma | Job

  /** One value per channel. */
  datatype Tri<T> = Tri(ctrl: T, dma: T, job: T) {
    function At(c: Channel): T {
      match c
      case Ctrl => ctrl
      case Dma => dma
      case Job => job
    }

    function Put(c: Channel, x: T): (r: Tri<T>)
      ensures r.At(c) == x
      ensures forall d: Channel :: d != c ==> r.At(d) == At(d)
    {
      match c
      case Ctrl => this.(ctrl := x)
      case Dma => this.(dma := x)
      case Job => this.(job := x)
    }
  }

  /** Where the interrupt handler is: between reading the status and clearing it, or between
      clearing it and taking the lock. */
  datatype Isr = Idle | Sampled(status: set<Channel>) | Acked(status: set<Channel>)

  /** Device status register, handler, and the counters under the lock. */
  datatype Kernel = Kernel(pending: set<Channel>, isr: Isr, count: Tri<u32>)

  function Boot(): Kernel {
    Kernel({}, Idle, Tri(0, 0, 0))
  }

  function RaiseIrq(k: Kernel, c: Channel): Kernel {
    k.(pending := k.pending + {c})
  }

  /** `status = readl(IRQ_STATUS)`; with nothing pending the handler returns at once. */
  function SampleStatus(k: Kernel): Kernel {
    if k.pending == {} then k else k.(isr := Sampled(k.pending))
  }

  /** `writel(status, IRQ_CLEAR)`. */
  function AckStatus(k: Kernel): Kernel
    requires k.isr.Sampled?
  {
    k.(pending := k.pending - k.isr.status, isr := Acked(k.isr.status))
  }

  function Bump(n: u32): u32 {
    (n + 1) % TWO32
  }

  function BumpIf(b: bool, n: u32): u32 {
    if b then Bump(n) else n
  }

  /** The counters, incremented under the lock. */
  function CountStatus(k: Kernel): Kernel
    requires k.isr.Acked?
  {
    var s := k.isr.status;
    k.(isr := Idle,
       count := Tri(BumpIf(Ctrl in s, k.count.ctrl), BumpIf(Dma in s, k.count.dma), BumpIf(Job in s, k.count.job)))
  }

  /** Return-and-clear, under the lock. */
  function TakeCount(k: Kernel, c: Channel): Kernel {
    k.(count := k.count.Put(c, 0))
  }

  lemma CountAt(k: Kernel, c: Channel)
    requires k.isr.Acked?
    ensures CountStatus(k).count.At(c) == BumpIf(c in k.isr.status, k.count.At(c))
  {
  }

  // ---------------------------------------------------------------- any number of readers

  datatype Reader = Waiting(channel: Channel) | Woken(channel: Channel)

  datatype Event =
    | Raised(c: Channel)
    | IsrSamples
    | IsrAcks
    | IsrCounts
    | Calls(r: nat, c: Channel)
    | Interrupted(r: nat)
    | Wakes(r: nat)
    | Takes(r: nat)

  /** The kernel, the readers inside `read()`, and the books: increments made by the handler,
      sum of the counts handed out, and wrap-arounds of each counter. */
  datatype World = World(k: Kernel, readers: map<nat, Reader>,
                         made: Tri<nat>, taken: Tri<nat>, wraps: Tri<nat>)

  function FirstWorld(): World {
    World(Boot(), map[], Tri(0, 0, 0), Tri(0, 0, 0), Tri(0, 0, 0))
  }

  predicate Enabled(w: World, e: Event) {
    match e
    case Raised(_) => true
    case IsrSamples => w.k.isr.Idle?
    case IsrAcks => w.k.isr.Sampled?
    case IsrCounts => w.k.isr.Acked?
    case Calls(r, _) => r !in w.readers
    case Interrupted(r) => r in w.readers && w.readers[r].Waiting?
    case Wakes(r) => r in w.readers && w.readers[r].Waiting? && w.k.count.At(w.readers[r].channel) != 0
    case Takes(r) => r in w.readers && w.readers[r].Woken?
  }

  function Tally(s: set<Channel>, t: Tri<nat>): Tri<nat> {
    Tri(t.ctrl + (if Ctrl in s then 1 else 0), t.dma + (if Dma in s then 1 else 0), t.job + (if Job in s then 1 else 0))
  }

  function Wrapping(k: Kernel): set<Channel>
    requires k.isr.Acked?
  {
    set c | c in k.isr.status && k.count.At(c) == UINT32_MAX
  }

  function Next(w: World, e: Event): World
    requires Enabled(w, e)
  {
    match e
    case Raised(c) => w.(k := RaiseIrq(w.k, c))
    case IsrSamples => w.(k := SampleStatus(w.k))
    case IsrAcks => w.(k := AckStatus(w.k))
    case IsrCounts =>
      w.(k := CountStatus(w.k), made := Tally(w.k.isr.status, w.made), wraps := Tally(Wrapping(w.k), w.wraps))
    case Calls(r, c) => w.(readers := w.readers[r := Waiting(c)])
    case Interrupted(r) => w.(readers := w.readers - {r})
    case Wakes(r) => w.(readers := w.readers[r := Woken(w.readers[r].channel)])
    case Takes(r) =>
      var c := w.readers[r].channel;
      w.(k := TakeCount(w.k, c), readers := w.readers - {r},
         taken := w.taken.Put(c, w.taken.At(c) + w.k.count.At(c)))
  }

  datatype Run = Begin | Then(past: Run, e: Event)

  predicate Legal(run: Run)
    decreases run, 0
  {
    run.Then? ==> Legal(run.past) && Enabled(After(run.past), run.e)
  }

  function After(run: Run): World
    requires Legal(run)
    decreases run, 1
  {
    match run
    case Begin => FirstWorld()
    case Then(past, e) => Next(After(past), e)
  }

  // ---------------------------------------------------------------- conservation

  predicate Balanced(w: World, c: Channel) {
    w.taken.At(c) + w.k.count.At(c) + TWO32 * w.wraps.At(c) == w.made.At(c)
  }

  /** Whatever the interleaving, the counts handed out plus the counter account for every
      increment of the handler, up to the wrap-arounds of the 32-bit counter. */
  lemma {:induction false} Conservation(run: Run, c: Channel)
    requires Legal(run)
    ensures Balanced(After(run), c)
  {
    if run.Then? {
      Conservation(run.past, c);
      BalanceStep(After(run.past), run.e, c);
    }
  }

  lemma BalanceStep(w: World, e: Event, c: Channel)
    requires Enabled(w, e) && Balanced(w, c)
    ensures Balanced(Next(w, e), c)
  {
    if e.IsrCounts? {
      CountAt(w.k, c);
    } else if e.Takes? && w.readers[e.r].channel != c {
      assert Next(w, e).k.count.At(c) == w.k.count.At(c);
    }
  }

  // ---------------------------------------------------------------- events of the device

  /** How often the device raised `c`. */
  function RaisedOn(run: Run, c: Channel): nat {
    match run
    case Begin => 0
    case Then(past, e) => RaisedOn(past, c) + One(e == Raised(c))
  }

  /** How often it did so while the status register already showed `c`. */
  function MergedOn(run: Run, c: Channel): nat
    requires Legal(run)
  {
    match run
    case Begin => 0
    case Then(past, e) => MergedOn(past, c) + One(e == Raised(c) && c in After(past).k.pending)
  }

  /** Events on their way to the counter: in the status register, or held by the handler. */
  function Transit(k: Kernel, c: Channel): nat {
    One(c in k.pending) + One(k.isr.Acked? && c in k.isr.status)
  }

  predicate Accounted(run: Run, c: Channel)
    requires Legal(run)
  {
    RaisedOn(run, c) == MergedOn(run, c) + After(run).made.At(c) + Transit(After(run).k, c)
  }

  predicate SampleShown(k: Kernel) {
    k.isr.Sampled? ==> k.isr.status <= k.pending
  }

  /** In every run each event of the device is counted, on its way to the counter, or merged into
      an earlier event of its channel that was not yet cleared. */
  lemma {:induction false} EventsAccounted(run: Run, c: Channel)
    requires Legal(run)
    ensures Accounted(run, c) && SampleShown(After(run).k)
  {
    if run.Then? {
      EventsAccounted(run.past, c);
      TransitStep(After(run.past), run.e, c);
    }
  }

  lemma TransitStep(w: World, e: Event, c: Channel)
    requires Enabled(w, e) && SampleShown(w.k)
    ensures SampleShown(Next(w, e).k)
    ensures Next(w, e).made.At(c) + Transit(Next(w, e).k, c) ==
            w.made.At(c) + Transit(w.k, c) + One(e == Raised(c) && c !in w.k.pending)
  {
  }

  /** The promise that no interrupt is lost: the readers' counts, the counter and what is on its way
      add up to the events raised exactly in the runs without a merged event and without a
      wrap-around, and below 2^32 events nothing wraps. */
  lemma NothingLostIff(run: Run, c: Channel)
    requires Legal(run)
    ensures After(run).taken.At(c) + After(run).k.count.At(c) + Transit(After(run).k, c) == RaisedOn(run, c)
            <==> MergedOn(run, c) == 0 && After(run).wraps.At(c) == 0
    ensures RaisedOn(run, c) < TWO32 ==> After(run).wraps.At(c) == 0
  {
    Conservation(run, c);
    EventsAccounted(run, c);
  }

  /** A run that loses one: two events of a channel meet before the handler reads the status. */
  lemma TwoEventsOneCount(c: Channel) returns (run: Run)
    ensures Legal(run) && RaisedOn(run, c) == 2 && MergedOn(run, c) == 1
    ensures After(run).k.count.At(c) == 1 && Transit(After(run).k, c) == 0
  {
    var twice := Then(Then(Begin, Raised(c)), Raised(c));
    assert RaisedOn(twice, c) == 2 && MergedOn(twice, c) == 1;
    assert After(twice).k == Kernel({c}, Idle, Tri(0, 0, 0));
    run := HandlerPasses(twice, c);
  }

  /** One pass of the handler over an event of `c`. */
  lemma HandlerPasses(start: Run, c: Channel) returns (run: Run)
    requires Legal(start) && After(start).k == Kernel({c}, Idle, Tri(0, 0, 0))
    ensures Legal(run) && After(run).k.count.At(c) == 1
    ensures After(run).k.pending == {} && After(run).k.isr.Idle?
    ensures RaisedOn(run, c) == RaisedOn(start, c) && MergedOn(run, c) == MergedOn(start, c)
    ensures After(run).readers == After(start).readers
  {
    var sampled := Then(start, IsrSamples);
    assert After(sampled).k == Kernel({c}, Sampled({c}), Tri(0, 0, 0));
    assert RaisedOn(sampled, c) == RaisedOn(start, c) && MergedOn(sampled, c) == MergedOn(start, c);
    var acked := Then(sampled, IsrAcks);
    assert After(acked).k == Kernel({}, Acked({c}), Tri(0, 0, 0)) && After(acked).readers == After(start).readers;
    assert RaisedOn(acked, c) == RaisedOn(sampled, c) && MergedOn(acked, c) == MergedOn(sampled, c);
    CountAt(After(acked).k, c);
    run := Then(acked, IsrCounts);
  }

  predicate Continues(later: Run, run: Run) {
    later == run || (later.Then? && Continues(later.past, run))
  }

  /** Every legal step continues a run. */
  lemma ContinuesOn(later: Run, run: Run, e: Event)
    ensures Continues(run, run)
    ensures Continues(later, run) ==> Continues(Then(later, e), run)
  {
  }

  /** An event that arrives between the status read and the clear, and everything after it: if its
      channel did not show in the status register, it stays on its way until it is counted. */
  lemma {:induction false} LateEvent(run: Run, c: Channel, later: Run)
    requires Legal(later) && Continues(later, Then(run, Raised(c)))
    ensures Legal(run)
    ensures After(run).k.isr.Sampled? && c !in After(run).k.pending ==>
              After(later).made.At(c) + Transit(After(later).k, c) > After(run).made.At(c)
    ensures After(run).k.isr.Sampled? && c in After(run).k.pending ==> MergedOn(later, c) > MergedOn(run, c)
  {
    EventsAccounted(later.past, c);
    if later == Then(run, Raised(c)) {
      TransitStep(After(run), Raised(c), c);
    } else {
      LateEvent(run, c, later.past);
      TransitStep(After(later.past), later.e, c);
    }
  }

  // ---------------------------------------------------------------- one reader per channel

  predicate Exclusive(w: World) {
    forall r, s :: r in w.readers && s in w.readers && w.readers[r].channel == w.readers[s].channel ==> r == s
  }

  predicate AlwaysExclusive(run: Run)
    requires Legal(run)
  {
    Exclusive(After(run)) && (run.Then? ==> AlwaysExclusive(run.past))
  }

  /** Since reader `r` last woke, some reader took the count of `c`, and the handler has not counted
      an event of `c` since then. */
  predicate Emptied(run: Run, r: nat, c: Channel)
    requires Legal(run)
  {
    match run
    case Begin => false
    case Then(past, e) =>
      if e == Wakes(r) then false
      else if TakesOn(After(past), e, c) then true
      else if CountsOn(After(past), e, c) then false
      else Emptied(past, r, c)
  }

  predicate TakesOn(w: World, e: Event, c: Channel)
    requires Enabled(w, e)
  {
    e.Takes? && w.readers[e.r].channel == c
  }

  predicate CountsOn(w: World, e: Event, c: Channel)
    requires Enabled(w, e)
  {
    e.IsrCounts? && c in w.k.isr.status
  }

  predicate IsWoken(w: World, r: nat, c: Channel) {
    r in w.readers && w.readers[r] == Woken(c)
  }

  /** What a woken reader is handed: nothing, exactly when another reader emptied the counter after it
      woke and no event was counted since. Any number of readers, below 2^32 increments. */
  lemma {:induction false} TakesZeroIff(run: Run, r: nat, c: Channel)
    requires Legal(run) && IsWoken(After(run), r, c) && After(run).made.At(c) < TWO32
    ensures After(run).k.count.At(c) == 0 <==> Emptied(run, r, c)
  {
    if run.Then? {
      var w, e := After(run.past), run.e;
      Conservation(run, c);
      MadeGrows(w, e, c);
      CountStep(w, e, c);
      if e != Wakes(r) && !TakesOn(w, e, c) && !CountsOn(w, e, c) {
        TakesZeroIff(run.past, r, c);
      }
    }
  }

  /** Only these steps change a counter. */
  lemma CountStep(w: World, e: Event, c: Channel)
    requires Enabled(w, e)
    ensures TakesOn(w, e, c) ==> Next(w, e).k.count.At(c) == 0
    ensures CountsOn(w, e, c) && Next(w, e).wraps.At(c) == 0 ==> Next(w, e).k.count.At(c) >= 1
    ensures !TakesOn(w, e, c) && !CountsOn(w, e, c) ==> Next(w, e).k.count.At(c) == w.k.count.At(c)
  {
    if e.IsrCounts? {
      CountAt(w.k, c);
    }
  }

  /** A reader that is alone on its channel finds a count when it takes the lock. */
  lemma TakenIsPositive(run: Run, r: nat, c: Channel)
    requires Legal(run) && AlwaysExclusive(run) && IsWoken(After(run), r, c) && After(run).made.At(c) < TWO32
    ensures After(run).k.count.At(c) >= 1
  {
    TakesZeroIff(run, r, c);
    AloneNotEmptied(run, r, c);
  }

  lemma {:induction false} AloneNotEmptied(run: Run, r: nat, c: Channel)
    requires Legal(run) && AlwaysExclusive(run) && IsWoken(After(run), r, c)
    ensures !Emptied(run, r, c)
  {
    if run.Then? && run.e != Wakes(r) {
      assert IsWoken(After(run.past), r, c);
      AloneNotEmptied(run.past, r, c);
    }
  }

  lemma MadeGrows(w: World, e: Event, c: Channel)
    requires Enabled(w, e)
    ensures w.made.At(c) <= Next(w, e).made.At(c)
    ensures w.wraps.At(c) <= Next(w, e).wraps.At(c)
  {
  }

  /** Two readers on one channel can both see the same event: the second one is handed zero. */
  lemma SecondReaderTakesZero(c: Channel) returns (run: Run, r: nat)
    ensures Legal(run) && After(run).k.count.At(c) == 0
    ensures r in After(run).readers && After(run).readers[r] == Woken(c)
  {
    var counted := OneCounted(c);
    var reading := Then(Then(counted, Calls(1, c)), Calls(2, c));
    r := 2;
    run := FirstTakes(reading, c, 1, 2);
  }

  lemma OneCounted(c: Channel) returns (run: Run)
    ensures Legal(run) && After(run).k.count.At(c) == 1 && After(run).readers == map[]
  {
    var raised := Then(Begin, Raised(c));
    assert After(raised).k == Kernel({c}, Idle, Tri(0, 0, 0));
    run := HandlerPasses(raised, c);
  }

  lemma FirstTakes(reading: Run, c: Channel, r: nat, s: nat) returns (run: Run)
    requires Legal(reading) && After(reading).k.count.At(c) == 1 && r != s
    requires After(reading).readers == map[r := Waiting(c), s := Waiting(c)]
    ensures Legal(run) && After(run).k.count.At(c) == 0
    ensures s in After(run).readers && After(run).readers[s] == Woken(c)
  {
    var half := Then(reading, Wakes(r));
    assert Legal(half) && After(half).readers == map[r := Woken(c), s := Waiting(c)];
    assert After(half).k == After(reading).k;
    var woken := Then(half, Wakes(s));
    assert Legal(woken) && After(woken).readers == map[r := Woken(c), s := Woken(c)];
    run := Then(woken, Takes(r));
  }

  // ---------------------------------------------------------------- the driver object

  datatype Rc = CimOk | Inval | NoMem | Io | Timeout | Proto | Perm

  datatype ReadResult = Interrupted | Failed | Got(count: u32)

  /** The driver and the library's wait on it. `signals` is how many more signals will arrive;
      `readable` says that the file descriptors are open on the driver, `copies` that the reader's buffer
      can be written. */
  class ScDev {
    const readable: bool
    const copies: bool
    var pending: set<Channel>
    var dmaCount: u32
    var ctrlCount: u32
    var jobCount: u32
    var signals: nat

    function Counts(): Tri<u32>
      reads this
    {
      Tri(ctrlCount, dmaCount, jobCount)
    }

    ghost function View(): Kernel
      reads this
    {
      Kernel(pending, Idle, Counts())
    }

    constructor (readable: bool, copies: bool)
      ensures View() == Boot() && signals == 0 && this.readable == readable && this.copies == copies
    {
      this.readable, this.copies := readable, copies;
      pending, dmaCount, ctrlCount, jobCount, signals := {}, 0, 0, 0, 0;
    }

    method Raise(c: Channel)
      modifies this`pending
      ensures View() == RaiseIrq(old(View()), c)
    {
      pending := pending + {c};
    }

    /** One run of the handler; `arriving` is raised by the device after the status read. */
    method Isr(arriving: set<Channel>) returns (handled: bool)
      modifies this
      ensures signals == old(signals)
      ensures handled <==> old(pending) != {}
      ensures !handled ==> View() == old(View())
      ensures handled ==>
                var sampled := SampleStatus(old(View()));
                View() == CountStatus(AckStatus(sampled.(pending := sampled.pending + arriving)))
    {
      var status := pending;
      if status == {} {
        return false;
      }
      pending := pending + arriving;
      pending := pending - status;
      if Dma in status {
        dmaCount := (dmaCount + 1) % TWO32;
      }
      if Ctrl in status {
        ctrlCount := (ctrlCount + 1) % TWO32;
      }
      if Job in status {
        jobCount := (jobCount + 1) % TWO32;
      }
      handled := true;
    }

    /** `read()` on a channel. A signal may interrupt the wait, and then every count is left alone;
        otherwise return-and-clear, whether or not a signal is pending. If the copy to the reader then
        faults, the count is gone. With a zero count and no signal the call blocks. */
    method Read(c: Channel) returns (r: ReadResult)
      requires readable && signals == 0 ==> Counts().At(c) != 0
      modifies this
      ensures r.Got? ==> readable && copies && 0 < r.count == old(Counts()).At(c)
      ensures r.Failed? ==> !(readable && copies) && (readable ==> old(Counts()).At(c) != 0)
      ensures r.Interrupted? ==> readable && old(signals) > 0
      ensures signals + One(r.Interrupted?) == old(signals)
      ensures View() == if readable && !r.Interrupted? then TakeCount(old(View()), c) else old(View())
    {
      if !readable {
        return Failed;
      }
      var signalled := *;
      if Counts().At(c) == 0 || (signals > 0 && signalled) {
        signals := signals - 1;
        return ReadResult.Interrupted;
      }
      r := if copies then Got(Counts().At(c)) else Failed;
      match c {
        case Dma => dmaCount := 0;
        case Ctrl => ctrlCount := 0;
        case Job => jobCount := 0;
      }
    }

    /** `wait_irq_count`: retry while interrupted; any other failure of the read is an I/O error. */
    method WaitIrqCount(c: Channel) returns (rc: Rc, count: u32)
      requires readable ==> Counts().At(c) != 0
      modifies this
      ensures rc == if readable && copies then CimOk else Io
      ensures rc == CimOk ==> count == old(Counts()).At(c)
      ensures View() == if readable then TakeCount(old(View()), c) else old(View())
    {
      var r := Read(c);
      while r.Interrupted?
        invariant r.Interrupted? ==> readable && View() == old(View())
        invariant !r.Interrupted? ==> View() == if readable then TakeCount(old(View()), c) else old(View())
        invariant r.Got? ==> readable && copies && r.count == old(Counts()).At(c)
        invariant r.Failed? ==> !(readable && copies)
        decreases if r.Interrupted? then 1 + signals else 0
      {
        r := Read(c);
      }
      if r.Failed? {
        return Io, 0;
      }
      return CimOk, r.count;
    }

    /** `wait_one_irq`: exactly one completion is expected. */
    method WaitOneIrq(c: Channel) returns (rc: Rc)
      requires readable ==> Counts().At(c) != 0
      modifies this
      ensures rc == if !(readable && copies) then Io else if old(Counts()).At(c) == 1 then CimOk else Proto
      ensures View() == if readable then TakeCount(old(View()), c) else old(View())
    {
      var count;
      rc, count := WaitIrqCount(c);
      if rc != CimOk {
        return rc;
      }
      rc := if count != 1 then Proto else CimOk;
    }
  }
}
