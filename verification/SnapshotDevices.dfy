/** The save and load routines: field by field onto a stream, and back. */
module SnapshotDevices {
  import opened Words
  import opened GuestMemory
  import opened SnapshotIo
  import opened Snapshot
  import T = TimerSpec
  import G = GicSpec

  // ----- timer -----

  method SaveChannel(out: OutStream, ch: T.Channel)
    modifies out
    ensures out.bytes == old(out.bytes) + ChannelBytes(ch)
  {
    hide ToLe, BoolByte;
    out.WriteScalar(ch.cval, 8);
    out.WriteBoolArray([ch.enable, ch.imask, ch.fired, ch.irqPending]);
  }

  method SaveTimer(out: OutStream, tm: T.Timer)
    requires |tm.cpus| < TWO32
    modifies out
    ensures out.bytes == old(out.bytes) + TimerBytes(tm)
  {
    hide TimerHeadBytes, CpusBytes;
    SaveTimerHead(out, tm);
    SaveCpus(out, tm.cpus);
  }

  method SaveCpus(out: OutStream, cpus: seq<T.CpuTimer>)
    modifies out
    ensures out.bytes == old(out.bytes) + CpusBytes(cpus)
  {
    hide ChannelBytes;
    ghost var whole := out.bytes + CpusBytes(cpus);
    var i := 0;
    assert cpus[0..] == cpus;
    while i < |cpus|
      invariant i <= |cpus|
      invariant whole == out.bytes + CpusBytes(cpus[i..])
    {
      assert CpusBytes(cpus[i..]) == CpuBytes(cpus[i]) + CpusBytes(cpus[i + 1..]) by {
        assert cpus[i..][1..] == cpus[i + 1..];
      }
      SaveChannel(out, cpus[i].cntv);
      SaveChannel(out, cpus[i].cntp);
      i := i + 1;
    }
    assert whole == out.bytes;
  }

  method SaveTimerHead(out: OutStream, tm: T.Timer)
    requires |tm.cpus| < TWO32
    modifies out
    ensures out.bytes == old(out.bytes) + TimerHeadBytes(tm)
  {
    hide ToLe, BoolByte;
    out.WriteScalar(tm.counter, 8);
    out.WriteScalar(tm.compare, 8);
    out.WriteBoolArray([tm.enabled, tm.mmioPending, tm.fired]);
    out.WriteScalar(|tm.cpus|, 4);
  }

  method LoadChannel(inp: InStream) returns (r: Option<T.Channel>)
    modifies inp
    ensures r.Some? <==> |old(inp.left)| >= CHANNEL_SIZE
    ensures r.Some? ==> r.value == ChannelOf(old(inp.left)[..CHANNEL_SIZE]) && inp.left == old(inp.left)[CHANNEL_SIZE..]
  {
    hide FromLe;
    var cval := inp.ReadScalar(8);
    if cval.None? { return None; }
    var flags := inp.ReadBoolArray(4);
    if flags.None? { return None; }
    ghost var s := old(inp.left)[..CHANNEL_SIZE];
    assert s[..8] == old(inp.left)[..8] && old(inp.left)[8..][..4] == s[8..12];
    Word64Fits(s[..8]);
    r := Some(T.Channel(cval.value, flags.value[0], flags.value[1], flags.value[2], flags.value[3]));
  }

  method LoadCpu(inp: InStream) returns (r: Option<T.CpuTimer>)
    modifies inp
    ensures match ReadBytes(CPU_SIZE, old(inp.left))
            case None => r.None?
            case Some(p) => r == Some(CpuOf(p.value)) && inp.left == p.rest
  {
    hide ChannelOf;
    var cntv := LoadChannel(inp);
    if cntv.None? { return None; }
    var cntp := LoadChannel(inp);
    if cntp.None? { return None; }
    ghost var s := old(inp.left)[..CPU_SIZE];
    assert s[..CHANNEL_SIZE] == old(inp.left)[..CHANNEL_SIZE];
    assert s[CHANNEL_SIZE..] == old(inp.left)[CHANNEL_SIZE..][..CHANNEL_SIZE];
    r := Some(T.CpuTimer(cntv.value, cntp.value));
  }

  /** Reads joined to those before them. */
  ghost function Joined<X>(read: seq<X>, r: Option<Parsed<seq<X>>>): Option<Parsed<seq<X>>> {
    match r
    case None => None
    case Some(p) => Some(Parsed(read + p.value, p.rest))
  }

  method LoadCpus(inp: InStream, n: nat) returns (r: Option<seq<T.CpuTimer>>)
    modifies inp
    ensures match ReadCpus(n, old(inp.left))
            case None => r.None?
            case Some(p) => r == Some(p.value) && inp.left == p.rest
  {
    hide CpuOf;
    var read: seq<T.CpuTimer> := [];
    assert forall s: seq<T.CpuTimer> :: [] + s == s;
    var i := 0;
    while i < n
      invariant i <= n
      invariant ReadCpus(n, old(inp.left)) == Joined(read, ReadCpus(n - i, inp.left))
    {
      var cpu := LoadCpu(inp);
      if cpu.None? { return None; }
      assert forall s: seq<T.CpuTimer> :: read + ([cpu.value] + s) == read + [cpu.value] + s;
      read := read + [cpu.value];
      i := i + 1;
    }
    assert read + [] == read;
    r := Some(read);
  }

  /** Loads what was saved; the interrupt flags are then recomputed. */
  method LoadTimer(inp: InStream, host: u64) returns (r: Option<T.Timer>)
    modifies inp
    ensures match LoadTimerBytes(old(inp.left), host)
            case None => r.None?
            case Some(p) => r == Some(p.value) && inp.left == p.rest
  {
    hide FromLe, T.UpdateIrq, ReadCpus;
    ghost var s := inp.left;
    var counter := inp.ReadScalar(8);
    if counter.None? { return None; }
    var compare := inp.ReadScalar(8);
    if compare.None? { return None; }
    var flags := inp.ReadBoolArray(3);
    if flags.None? { return None; }
    var count := inp.ReadScalar(4);
    if count.None? { return None; }
    ghost var h := s[..TIMER_HEAD];
    assert s[..8] == h[..8] && s[8..][..8] == h[8..16] && s[16..][..3] == h[16..19] && s[19..][..4] == h[19..23];
    if count.value == 0 { return None; }
    var cpus := LoadCpus(inp, count.value);
    if cpus.None? { return None; }
    Word64Fits(h[..8]);
    Word64Fits(h[8..16]);
    r := Some(T.UpdateIrq(T.Timer(cpus.value, counter.value, 0, 1, T.GuestStep, host, compare.value,
                                  flags.value[0], flags.value[1], flags.value[2])));
  }

  // ----- interrupt controller -----

  method SaveLocal(out: OutStream, l: G.Local)
    requires G.LocalWf(l)
    modifies out
    ensures out.bytes == old(out.bytes) + LocalBytes(l)
  {
    hide ToLe, BoolBytes;
    out.WriteBoolArray(l.pending);
    out.WriteBoolArray(l.enabled);
    out.WriteBoolArray(l.active);
    out.WriteBoolArray(l.line);
    out.WriteRaw(l.prio);
    out.WriteScalar(l.waker, 4);
    out.WriteScalar(l.igroup, 4);
    out.WriteScalar(l.icfgr0, 4);
    out.WriteScalar(l.icfgr1, 4);
    out.WriteScalar(l.mpidr, 8);
  }

  method SaveGic(out: OutStream, g: G.Gic)
    requires G.Wf(g) && |g.locals| < TWO32
    modifies out
    ensures out.bytes == old(out.bytes) + GicBytes(g)
  {
    hide GicHeadBytes, LocalsBytes;
    SaveGicHead(out, g);
    SaveLocals(out, g.locals);
  }

  method SaveLocals(out: OutStream, ls: seq<G.Local>)
    requires forall i | 0 <= i < |ls| :: G.LocalWf(ls[i])
    modifies out
    ensures out.bytes == old(out.bytes) + LocalsBytes(ls)
  {
    hide LocalBytes, G.LocalWf;
    ghost var whole := out.bytes + LocalsBytes(ls);
    var i := 0;
    assert ls[0..] == ls;
    while i < |ls|
      invariant i <= |ls|
      invariant whole == out.bytes + LocalsBytes(ls[i..])
    {
      assert LocalsBytes(ls[i..]) == LocalBytes(ls[i]) + LocalsBytes(ls[i + 1..]) by {
        assert ls[i..][1..] == ls[i + 1..];
      }
      SaveLocal(out, ls[i]);
      i := i + 1;
    }
    assert whole == out.bytes;
  }

  method SaveGicHead(out: OutStream, g: G.Gic)
    requires G.Wf(g) && |g.locals| < TWO32
    modifies out
    ensures out.bytes == old(out.bytes) + GicHeadBytes(g)
  {
    hide ToLe, BoolBytes;
    out.WriteScalar(|g.locals|, 4);
    out.WriteBoolArray(g.pending);
    out.WriteBoolArray(g.enabled);
    out.WriteBoolArray(g.active);
    out.WriteBoolArray(g.line);
    out.WriteRaw(g.prio);
    out.WriteScalar(g.ctlr, 4);
  }

  /** Four bit arrays and a priority array of one length, in a row. */
  method LoadBits(inp: InStream, n: nat)
    returns (ok: bool, pending: seq<bool>, enabled: seq<bool>, active: seq<bool>, line: seq<bool>, prio: seq<u8>)
    modifies inp
    ensures ok <==> |old(inp.left)| >= 5 * n
    ensures ok ==> var s := old(inp.left);
      && pending == Bools(s[..n]) && enabled == Bools(s[n..2 * n]) && active == Bools(s[2 * n..3 * n])
      && line == Bools(s[3 * n..4 * n]) && prio == s[4 * n..5 * n] && inp.left == s[5 * n..]
  {
    hide Bools;
    pending, enabled, active, line, prio := [], [], [], [], [];
    ghost var s0 := inp.left;
    var a := inp.ReadBoolArray(n);
    if a.None? { return false, [], [], [], [], []; }
    ghost var s1 := inp.left;
    var b := inp.ReadBoolArray(n);
    if b.None? { return false, [], [], [], [], []; }
    ghost var s2 := inp.left;
    var c := inp.ReadBoolArray(n);
    if c.None? { return false, [], [], [], [], []; }
    ghost var s3 := inp.left;
    var d := inp.ReadBoolArray(n);
    if d.None? { return false, [], [], [], [], []; }
    ghost var s4 := inp.left;
    var e := inp.ReadRaw(n);
    if e.None? { return false, [], [], [], [], []; }
    InRow(s0, s1, s2, n, 1);
    InRow(s0, s2, s3, n, 2);
    InRow(s0, s3, s4, n, 3);
    InRow(s0, s4, inp.left, n, 4);
    return true, a.value, b.value, c.value, d.value, e.value;
  }

  /** The piece after the first k of n bytes each. */
  lemma InRow(s: seq<u8>, t: seq<u8>, rest: seq<u8>, n: nat, k: nat)
    requires k * n <= |s| && t == s[k * n..] && n <= |t| && rest == t[n..]
    ensures k * n + n == (k + 1) * n <= |s|
    ensures t[..n] == s[k * n..(k + 1) * n] && rest == s[(k + 1) * n..]
  {
  }

  method LoadLocal(inp: InStream) returns (r: Option<G.Local>)
    modifies inp
    ensures match ReadBytes(LOCAL_SIZE, old(inp.left))
            case None => r.None?
            case Some(p) => r == Some(LocalOf(p.value)) && inp.left == p.rest
  {
    hide FromLe, Bools;
    ghost var s := inp.left;
    var ok, pending, enabled, active, line, prio := LoadBits(inp, 32);
    if !ok { return None; }
    var waker := inp.ReadScalar(4);
    if waker.None? { return None; }
    var igroup := inp.ReadScalar(4);
    if igroup.None? { return None; }
    var icfgr0 := inp.ReadScalar(4);
    if icfgr0.None? { return None; }
    var icfgr1 := inp.ReadScalar(4);
    if icfgr1.None? { return None; }
    var mpidr := inp.ReadScalar(8);
    if mpidr.None? { return None; }
    ghost var t := s[..LOCAL_SIZE];
    assert s[..32] == t[0..32] && s[32..64] == t[32..64] && s[64..96] == t[64..96] && s[96..128] == t[96..128];
    assert s[128..160] == t[128..160] && s[160..][..4] == t[160..164] && s[164..][..4] == t[164..168];
    assert s[168..][..4] == t[168..172] && s[172..][..4] == t[172..176] && s[176..][..8] == t[176..184];
    Word32Fits(t[160..164]);
    Word32Fits(t[164..168]);
    Word32Fits(t[168..172]);
    Word32Fits(t[172..176]);
    Word64Fits(t[176..184]);
    r := Some(G.Local(pending, enabled, active, line, prio, waker.value, igroup.value, icfgr0.value, icfgr1.value,
                      mpidr.value));
  }

  method LoadLocals(inp: InStream, n: nat) returns (r: Option<seq<G.Local>>)
    modifies inp
    ensures match ReadLocals(n, old(inp.left))
            case None => r.None?
            case Some(p) => r == Some(p.value) && inp.left == p.rest
  {
    hide LocalOf, G.LocalWf;
    var read: seq<G.Local> := [];
    assert forall s: seq<G.Local> :: [] + s == s;
    var i := 0;
    while i < n
      invariant i <= n
      invariant ReadLocals(n, old(inp.left)) == Joined(read, ReadLocals(n - i, inp.left))
    {
      var l := LoadLocal(inp);
      if l.None? { return None; }
      assert forall s: seq<G.Local> :: read + ([l.value] + s) == read + [l.value] + s;
      read := read + [l.value];
      i := i + 1;
    }
    assert read + [] == read;
    r := Some(read);
  }

  /** Loads what was saved into a controller whose epoch stood at `epoch`. */
  method LoadGic(inp: InStream, epoch: nat) returns (r: Option<G.Gic>)
    modifies inp
    ensures match LoadGicBytes(old(inp.left), epoch)
            case None => r.None?
            case Some(p) => r == Some(p.value) && inp.left == p.rest
  {
    hide FromLe, Bools, ReadLocals;
    ghost var s := inp.left;
    assert |s| >= GIC_HEAD ==> s[..GIC_HEAD][0..4] == s[..4];
    var count := inp.ReadScalar(4);
    if count.None? || count.value == 0 { return None; }
    var ok, pending, enabled, active, line, prio := LoadBits(inp, G.SPIS);
    if !ok { return None; }
    var ctlr := inp.ReadScalar(4);
    if ctlr.None? { return None; }
    ghost var h := s[..GIC_HEAD];
    HeadSlices(s, h);
    Word32Fits(h[4964..4968]);
    var locals := LoadLocals(inp, count.value);
    if locals.None? { return None; }
    r := Some(G.Gic(locals.value, pending, enabled, active, line, prio, ctlr.value, epoch + 3));
  }

  lemma HeadSlices(s: seq<u8>, h: seq<u8>)
    requires |s| >= GIC_HEAD && h == s[..GIC_HEAD]
    ensures s[..4] == h[0..4] && s[4..][..992] == h[4..996] && s[4..][992..1984] == h[996..1988]
    ensures s[4..][1984..2976] == h[1988..2980] && s[4..][2976..3968] == h[2980..3972]
    ensures s[4..][3968..4960] == h[3972..4964] && s[4..][4960..][..4] == h[4964..4968]
    ensures s[4..][4960..][4..] == s[GIC_HEAD..]
  {
  }
}
