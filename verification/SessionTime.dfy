/** The simulated time that the bridge reports to its client, over whole sessions. */
module SessionTime {
  import opened Bytes
  import opened CimSram
  import opened MemController
  import opened History
  import opened Bridge

  /** The request reaches the controller. */
  predicate Reaches(h: Header) {
    !Oversize(h) && !EmptyBlockRead(h)
  }

  function Extended(s: Server, h: Header, body: seq<byte>, t: Trace): Trace
    requires IsServer(s) && Acceptable(h, body)
  {
    if Reaches(h) then Then(t, AccessOf(h, Received(s, h, body))) else t
  }

  /** The controller accesses of a session that follows the accesses `t`. */
  function Accesses(s: Server, sh: Shape, rs: Requests, t: Trace): Trace
    requires AllServable(s, sh, rs)
    decreases rs
  {
    match rs
    case End => t
    case More(h, body, rest) => Accesses(Serve(s, sh, h, body).server, sh, rest, Extended(s, h, body, t))
  }

  /** The sum of the times in the headers of a session's replies. */
  function Reported(s: Server, sh: Shape, rs: Requests): nat
    requires AllServable(s, sh, rs)
    decreases rs
  {
    match rs
    case End => 0
    case More(h, body, rest) =>
      var r := Serve(s, sh, h, body);
      r.header.simulatedNs + Reported(r.server, sh, rest)
  }

  lemma ComputeNsFits(sh: Shape)
    ensures ComputeNs(sh) <= TILE_NS * SRAM_SIZE
  {
    if Fits(sh) {
      FewTiles(sh.n);
      FewTiles(sh.m);
      MulMonotone(TileCount(sh.n), TileCount(sh.m), sh.n, sh.m);
      assert WEIGHT_BASE + sh.m * sh.n <= SRAM_SIZE;
    }
  }

  lemma FewTiles(n: nat)
    ensures TileCount(n) <= n
  {
  }

  lemma MulMonotone(x: nat, y: nat, n: nat, m: nat)
    requires x <= n && y <= m
    ensures x * y <= m * n
  {
    assert x * y <= n * y <= n * m;
  }

  /** The time of one access fits the header's 64 bits. */
  lemma NsFits(d: Device, sh: Shape, x: Access)
    requires IsDevice(d) && Defined(d.regs, x) && x.len <= DMA_BUFFER_SIZE
    ensures Step(d, sh, x).ns < TWO64
  {
    ComputeNsFits(sh);
    if IsStart(x) {
      var d1 := d.(regs := d.regs.(control := WordOf(x)));
      StartNs(d1, sh);
      assert Step(d, sh, x).ns == StartOperation(d1, sh).ns + CTRL_REG_NS;
    }
  }

  /** The controller has seen the accesses `t`. */
  predicate Reached(s: Server, sh: Shape, t: Trace) {
    AllDefined(t, sh) && AllWellFormed(t) && IsServer(s) && After(t, sh) == s.dev
  }

  /** The controller has seen `t`, in `ns` nanoseconds. */
  predicate ReachedIn(s: Server, sh: Shape, t: Trace, ns: nat) {
    Reached(s, sh, t) && TotalNs(t, sh) == ns
  }

  lemma OneRequest(s: Server, sh: Shape, h: Header, body: seq<byte>, t: Trace, ns: nat)
    requires ReachedIn(s, sh, t, ns) && Servable(s, h, body)
    ensures var r := Serve(s, sh, h, body);
            ReachedIn(r.server, sh, Extended(s, h, body, t), ns + r.header.simulatedNs)
  {
    if Reaches(h) {
      var x := AccessOf(h, Received(s, h, body));
      NsFits(s.dev, sh, x);
      ReachingRequest(s, sh, h, body, Step(s.dev, sh, x));
      OneAccess(s, sh, t, ns, x, Serve(s, sh, h, body).server);
    }
  }

  lemma ReachingRequest(s: Server, sh: Shape, h: Header, body: seq<byte>, o: Outcome)
    requires Servable(s, h, body) && Reaches(h) && o == Step(s.dev, sh, AccessOf(h, Received(s, h, body)))
    requires o.ns < TWO64
    ensures Serve(s, sh, h, body).server.dev == o.dev && Serve(s, sh, h, body).header.simulatedNs == o.ns
  {
    SmallMod(o.ns, TWO64);
  }

  lemma OneAccess(s: Server, sh: Shape, t: Trace, ns: nat, x: Access, r: Server)
    requires ReachedIn(s, sh, t, ns) && Defined(s.dev.regs, x) && IsServer(r) && r.dev == Step(s.dev, sh, x).dev
    ensures ReachedIn(r, sh, Then(t, x), ns + Step(s.dev, sh, x).ns)
  {
  }

  lemma {:induction false} ReportedTotal(s: Server, sh: Shape, rs: Requests, t: Trace)
    requires AllServable(s, sh, rs) && Reached(s, sh, t)
    ensures var u := Accesses(s, sh, rs, t);
            AllDefined(u, sh) && AllWellFormed(u) && TotalNs(u, sh) == TotalNs(t, sh) + Reported(s, sh, rs)
    decreases rs
  {
    if rs.More? {
      OneRequest(s, sh, rs.h, rs.body, t, TotalNs(t, sh));
      ReportedTotal(Serve(s, sh, rs.h, rs.body).server, sh, rs.rest, Extended(s, rs.h, rs.body, t));
    }
  }

  /** From reset on, the times a session's replies report add up to the price of the accesses that the
      requests make. */
  lemma ReportedIsCost(s: Server, sh: Shape, rs: Requests)
    requires AllServable(s, sh, rs) && s.dev == Reset()
    ensures var u := Accesses(s, sh, rs, Trace.Start);
            AllDefined(u, sh) && AllWellFormed(u) && Reported(s, sh, rs) == Cost(BillOf(u), sh)
  {
    ReportedTotal(s, sh, rs, Trace.Start);
    TimeAccounting(Accesses(s, sh, rs, Trace.Start), sh);
  }
}
