/** The injected error records of the AER injector, and the registers they stand in for. */
module AerErrors {

  datatype Option<T> = None | Some(value: T)

  // Offsets in the AER capability and bits of the root error status, as in the Linux header pci_regs.h.
  const PCI_ERR_UNCOR_STATUS := 0x04
  const PCI_ERR_COR_STATUS := 0x10
  const PCI_ERR_HEADER_LOG := 0x1c
  const PCI_ERR_ROOT_STATUS := 0x30
  const PCI_ERR_ROOT_ERR_SRC := 0x34

  const COR_RCV: bv32 := 0x01
  const MULTI_COR_RCV: bv32 := 0x02
  const UNCOR_RCV: bv32 := 0x04
  const MULTI_UNCOR_RCV: bv32 := 0x08
  const FIRST_FATAL: bv32 := 0x10
  const NONFATAL_RCV: bv32 := 0x20
  const FATAL_RCV: bv32 := 0x40

  // ----- bits -----

  /** Bit i of a register, counted from the lowest. */
  predicate Bit(w: bv32, i: bv5) { (w >> i) & 1 == 1 }

  ghost predicate CommonBit(a: bv32, b: bv32) { exists i: bv5 :: Bit(a, i) && Bit(b, i) }

  lemma SomeBit(w: bv32) returns (i: bv5)
    requires w != 0
    ensures Bit(w, i)
  {
    i := 0;
    if (w >> i) & 0xffff == 0 { i := i + 16; }
    if (w >> i) & 0xff == 0 { i := i + 8; }
    if (w >> i) & 0xf == 0 { i := i + 4; }
    if (w >> i) & 0x3 == 0 { i := i + 2; }
    if (w >> i) & 0x1 == 0 { i := i + 1; }
  }

  lemma BitsOf(a: bv32, b: bv32, i: bv5)
    ensures Bit(a & b, i) == (Bit(a, i) && Bit(b, i)) && Bit(a | b, i) == (Bit(a, i) || Bit(b, i))
    ensures Bit(a ^ b, i) == (Bit(a, i) != Bit(b, i)) && Bit(!a, i) == !Bit(a, i) && !Bit(0, i)
  {}

  lemma CommonBitExactly(a: bv32, b: bv32)
    ensures a & b != 0 <==> CommonBit(a, b)
  {
    if a & b != 0 {
      var i := SomeBit(a & b);
      BitsOf(a, b, i);
    } else if i: bv5 :| Bit(a, i) && Bit(b, i) {
      BitsOf(a, b, i);
    }
  }

  datatype Reg = UncorStatus | CorStatus | HeaderLog0 | HeaderLog1 | HeaderLog2 | HeaderLog3 | RootStatus | SourceId

  datatype AerError = AerError(domain: int, bus: nat, devfn: nat, posCapErr: int,
                               uncorStatus: bv32, corStatus: bv32, headerLog0: bv32, headerLog1: bv32,
                               headerLog2: bv32, headerLog3: bv32, rootStatus: bv32, sourceId: bv32)
  {
    /** *target */
    function Get(r: Reg): bv32 {
      match r
      case UncorStatus => uncorStatus
      case CorStatus => corStatus
      case HeaderLog0 => headerLog0
      case HeaderLog1 => headerLog1
      case HeaderLog2 => headerLog2
      case HeaderLog3 => headerLog3
      case RootStatus => rootStatus
      case SourceId => sourceId
    }

    /** *target = v */
    function Set(r: Reg, v: bv32): (e: AerError)
      ensures e.Get(r) == v && forall q: Reg | q != r :: e.Get(q) == Get(q)
      ensures SameKey(e, this) && e.posCapErr == posCapErr
    {
      match r
      case UncorStatus => this.(uncorStatus := v)
      case CorStatus => this.(corStatus := v)
      case HeaderLog0 => this.(headerLog0 := v)
      case HeaderLog1 => this.(headerLog1 := v)
      case HeaderLog2 => this.(headerLog2 := v)
      case HeaderLog3 => this.(headerLog3 := v)
      case RootStatus => this.(rootStatus := v)
      case SourceId => this.(sourceId := v)
    }
  }

  predicate SameKey(a: AerError, b: AerError) { a.domain == b.domain && a.bus == b.bus && a.devfn == b.devfn }

  /** A zeroed record with its address filled in. */
  function NewError(domain: int, bus: nat, devfn: nat, posCapErr: int): AerError {
    AerError(domain, bus, devfn, posCapErr, 0, 0, 0, 0, 0, 0, 0, 0)
  }

  predicate Matches(e: AerError, domain: int, bus: nat, devfn: nat) {
    e.domain == domain && e.bus == bus && e.devfn == devfn
  }

  /** The first record of a function, or the length of the list. */
  function Find(errs: seq<AerError>, domain: int, bus: nat, devfn: nat): (i: nat)
    ensures i <= |errs| && (i < |errs| ==> Matches(errs[i], domain, bus, devfn))
    ensures forall j | 0 <= j < i :: !Matches(errs[j], domain, bus, devfn)
  {
    if errs == [] || Matches(errs[0], domain, bus, devfn) then 0 else 1 + Find(errs[1..], domain, bus, devfn)
  }

  /** Which register of the record a configuration offset falls on. */
  function Target(e: AerError, where: int): Option<Reg> {
    var offset := where - e.posCapErr;
    if e.posCapErr == -1 then None
    else if offset == PCI_ERR_UNCOR_STATUS then Some(UncorStatus)
    else if offset == PCI_ERR_COR_STATUS then Some(CorStatus)
    else if offset == PCI_ERR_HEADER_LOG then Some(HeaderLog0)
    else if offset == PCI_ERR_HEADER_LOG + 4 then Some(HeaderLog1)
    else if offset == PCI_ERR_HEADER_LOG + 8 then Some(HeaderLog2)
    else if offset == PCI_ERR_HEADER_LOG + 12 then Some(HeaderLog3)
    else if offset == PCI_ERR_ROOT_STATUS then Some(RootStatus)
    else if offset == PCI_ERR_ROOT_ERR_SRC then Some(SourceId)
    else None
  }

  predicate Rw1cs(r: Reg) { r.UncorStatus? || r.CorStatus? || r.RootStatus? }

  datatype Place = Place(index: nat, reg: Reg)

  /** The register of a record that an access falls on; None when it must reach the device. */
  function Shadow(errs: seq<AerError>, domain: int, bus: nat, devfn: nat, where: int, size: int): (p: Option<Place>)
    ensures p.Some? ==> p.value.index < |errs|
  {
    var i := Find(errs, domain, bus, devfn);
    if size != 4 || domain < 0 || i == |errs| then None
    else match Target(errs[i], where) case None => None case Some(r) => Some(Place(i, r))
  }

  /** *sim ^ val */
  function Toggled(sim: bv32, val: bv32): bv32 { sim ^ val }

  /** A write to a shadowed register. A write-1-to-clear register is written with exclusive or. */
  function Written(e: AerError, r: Reg, val: bv32): AerError {
    e.Set(r, if Rw1cs(r) then Toggled(e.Get(r), val) else val)
  }

  function Stored(errs: seq<AerError>, p: Place, val: bv32): seq<AerError>
    requires p.index < |errs|
  {
    errs[p.index := Written(errs[p.index], p.reg, val)]
  }

  /** The write cleared exactly the bits it wrote ones to. */
  ghost predicate Clears(now: bv32, before: bv32, val: bv32) {
    forall i: bv5 :: Bit(now, i) == (Bit(before, i) && !Bit(val, i))
  }

  ghost predicate AllSet(before: bv32, val: bv32) { forall i: bv5 :: Bit(val, i) ==> Bit(before, i) }

  lemma XorClears(sim: bv32, val: bv32)
    ensures Clears(Toggled(sim, val), sim, val) <==> AllSet(sim, val)
  {
    hide Bit;
    forall i: bv5 ensures Bit(Toggled(sim, val), i) == (Bit(sim, i) != Bit(val, i)) { BitsOf(sim, val, i); }
  }

  /** A shadowed write is seen by the next read at the same place and by no other. */
  lemma ReadAfterWrite(errs: seq<AerError>, domain: int, bus: nat, devfn: nat, where: int, val: bv32,
                       domain': int, bus': nat, devfn': nat, where': int, size': int)
    requires Shadow(errs, domain, bus, devfn, where, 4).Some?
    ensures var p := Shadow(errs, domain, bus, devfn, where, 4).value;
            var after := Stored(errs, p, val);
            var q := Shadow(errs, domain', bus', devfn', where', size');
            && Shadow(after, domain', bus', devfn', where', size') == q
            && (q.Some? && q.value != p ==> after[q.value.index].Get(q.value.reg) == errs[q.value.index].Get(q.value.reg))
            && (!p.reg.UncorStatus? && !p.reg.CorStatus? && !p.reg.RootStatus? ==> after[p.index].Get(p.reg) == val)
  {
    hide Toggled;
    var p := Shadow(errs, domain, bus, devfn, where, 4).value;
    var after := Stored(errs, p, val);
    FindSame(errs, after, domain', bus', devfn');
  }

  /** Writing ones to a status register clears exactly those bits if and only if all of them were set; otherwise the
      ones written to clear bits turn them on. */
  lemma StatusWriteClears(errs: seq<AerError>, p: Place, val: bv32)
    requires p.index < |errs| && (p.reg.UncorStatus? || p.reg.CorStatus? || p.reg.RootStatus?)
    ensures var before, now := errs[p.index].Get(p.reg), Stored(errs, p, val)[p.index].Get(p.reg);
            Clears(now, before, val) <==> AllSet(before, val)
  {
    hide Clears, AllSet, Toggled;
    XorClears(errs[p.index].Get(p.reg), val);
  }

  lemma {:induction false} FindSame(errs: seq<AerError>, after: seq<AerError>, domain: int, bus: nat, devfn: nat)
    requires |errs| == |after| && forall i | 0 <= i < |errs| :: SameKey(errs[i], after[i])
    ensures Find(errs, domain, bus, devfn) == Find(after, domain, bus, devfn)
  {
    if errs != [] {
      forall i | 0 <= i < |errs| - 1 ensures SameKey(errs[1..][i], after[1..][i]) {
        assert SameKey(errs[i + 1], after[i + 1]);
      }
      FindSame(errs[1..], after[1..], domain, bus, devfn);
      assert SameKey(errs[0], after[0]);
    }
  }

  // ----- an injection -----

  /** What the user asks for. */
  datatype Injection = Injection(bus: bv8, devfn: bv8, uncor: bv32, cor: bv32,
                                 log0: bv32, log1: bv32, log2: bv32, log3: bv32)

  /** status |= bits */
  function Added(status: bv32, bits: bv32): bv32 { status | bits }

  /** The record of the failing function: status bits add up, the header log is the last one. */
  function Merge(e: AerError, inj: Injection): (r: AerError)
    ensures SameKey(r, e) && r.posCapErr == e.posCapErr
  {
    e.(uncorStatus := Added(e.uncorStatus, inj.uncor), corStatus := Added(e.corStatus, inj.cor),
       headerLog0 := inj.log0, headerLog1 := inj.log1, headerLog2 := inj.log2, headerLog3 := inj.log3)
  }

  function RequesterId(inj: Injection): bv32 { (inj.bus as bv32 << 8) | inj.devfn as bv32 }

  /** status & bit */
  predicate Has(status: bv32, bit: bv32) { status & bit != 0 }

  function CorRoot(status: bv32): bv32 {
    if Has(status, COR_RCV) then Added(status, MULTI_COR_RCV) else Added(status, COR_RCV)
  }

  function UncorRoot(status: bv32, fatal: bool): bv32 {
    var s := if Has(status, UNCOR_RCV) then Added(status, MULTI_UNCOR_RCV) else status;
    var f := Added(s, FATAL_RCV);
    var t := if !fatal then Added(s, NONFATAL_RCV) else if Has(f, UNCOR_RCV) then f else Added(f, FIRST_FATAL);
    Added(t, UNCOR_RCV)
  }

  /** sever & einj->uncor_status */
  predicate Severe(inj: Injection, sever: bv32) { sever & inj.uncor != 0 }

  /** The root port's error status after an injection. */
  function RootAfter(status: bv32, inj: Injection, sever: bv32): bv32 {
    var s := if inj.cor != 0 then CorRoot(status) else status;
    if inj.uncor != 0 then UncorRoot(s, Severe(inj, sever)) else s
  }

  function SetLow(source: bv32, id: bv32): bv32 { (source & 0xffff0000) | id }

  function SetHigh(source: bv32, id: bv32): bv32 { (source & 0x0000ffff) | (id << 16) }

  function SourceAfter(source: bv32, inj: Injection): bv32 {
    var s := if inj.cor != 0 then SetLow(source, RequesterId(inj)) else source;
    if inj.uncor != 0 then SetHigh(s, RequesterId(inj)) else s
  }

  /** The record of the root port. */
  function MergeRoot(e: AerError, inj: Injection, sever: bv32): (r: AerError)
    ensures SameKey(r, e) && r.posCapErr == e.posCapErr
  {
    e.(rootStatus := RootAfter(e.rootStatus, inj, sever), sourceId := SourceAfter(e.sourceId, inj))
  }

  /** The list with a record of this function, made at the front when there was none. A function whose domain is
      negative is never found. */
  function Ensure(errs: seq<AerError>, domain: int, bus: nat, devfn: nat, pos: int): (r: seq<AerError>)
    ensures IndexOf(r, domain, bus, devfn) < |r| && Matches(r[IndexOf(r, domain, bus, devfn)], domain, bus, devfn)
  {
    if domain < 0 || Find(errs, domain, bus, devfn) == |errs| then [NewError(domain, bus, devfn, pos)] + errs else errs
  }

  function IndexOf(errs: seq<AerError>, domain: int, bus: nat, devfn: nat): nat {
    if domain < 0 then 0 else Find(errs, domain, bus, devfn)
  }

  /** No function has two records. */
  ghost predicate Unique(errs: seq<AerError>) {
    forall i, j | 0 <= i < j < |errs| && errs[i].domain >= 0 :: !SameKey(errs[i], errs[j])
  }

  lemma EnsureUnique(errs: seq<AerError>, domain: int, bus: nat, devfn: nat, pos: int)
    requires Unique(errs)
    ensures Unique(Ensure(errs, domain, bus, devfn, pos))
  {
    var r := Ensure(errs, domain, bus, devfn, pos);
    if r != errs {
      forall i, j | 0 <= i < j < |r| && r[i].domain >= 0 ensures !SameKey(r[i], r[j]) {
        if i > 0 { assert !SameKey(errs[i - 1], errs[j - 1]); }
      }
    }
  }

  /** Replacing a record by one of the same function keeps that. */
  lemma UpdateUnique(errs: seq<AerError>, i: nat, e: AerError)
    requires Unique(errs) && i < |errs| && SameKey(e, errs[i])
    ensures Unique(errs[i := e])
  {
    var r := errs[i := e];
    forall j, k | 0 <= j < k < |r| && r[j].domain >= 0 ensures !SameKey(r[j], r[k]) {
      assert !SameKey(errs[j], errs[k]);
    }
  }

  /** Where a device is and where its capability begins. */
  datatype Function = Function(domain: int, bus: nat, devfn: nat, pos: int)

  predicate SameFunction(f: Function, g: Function) { f.domain == g.domain && f.bus == g.bus && f.devfn == g.devfn }

  /** The failing function's record is made or found, and updated. */
  function Recorded(errs: seq<AerError>, f: Function, inj: Injection): seq<AerError> {
    var r := Ensure(errs, f.domain, f.bus, f.devfn, f.pos);
    var i := IndexOf(r, f.domain, f.bus, f.devfn);
    r[i := Merge(r[i], inj)]
  }

  /** Then the root port's. */
  function Rooted(errs: seq<AerError>, f: Function, inj: Injection, sever: bv32): seq<AerError> {
    var r := Ensure(errs, f.domain, f.bus, f.devfn, f.pos);
    var i := IndexOf(r, f.domain, f.bus, f.devfn);
    r[i := MergeRoot(r[i], inj, sever)]
  }

  /** All bits of a nonzero status are masked. */
  predicate AllMasked(status: bv32, mask: bv32) { status != 0 && status & !mask == 0 }

  lemma NonzeroExactly(w: bv32)
    ensures w != 0 <==> exists i: bv5 :: Bit(w, i)
  {
    if w != 0 {
      var i := SomeBit(w);
    } else {
      forall i: bv5 ensures !Bit(0, i) { BitsOf(0, 0, i); }
    }
  }

  lemma CoveredExactly(status: bv32, mask: bv32)
    ensures status & !mask == 0 <==> forall i: bv5 :: Bit(status, i) ==> Bit(mask, i)
  {
    CommonBitExactly(status, !mask);
    forall i: bv5 ensures Bit(!mask, i) == !Bit(mask, i) { BitsOf(mask, mask, i); }
    hide Bit;
  }

  /** Some bit is asked for, and every bit asked for is set in the mask. */
  lemma MaskedExactly(status: bv32, mask: bv32)
    ensures AllMasked(status, mask)
       <==> (exists i: bv5 :: Bit(status, i)) && (forall i: bv5 :: Bit(status, i) ==> Bit(mask, i))
  {
    hide Bit;
    NonzeroExactly(status);
    CoveredExactly(status, mask);
  }

  /** An error is reported as fatal when one of its bits is set in the severity mask. */
  lemma SevereExactly(inj: Injection, sever: bv32)
    ensures Severe(inj, sever) <==> CommonBit(inj.uncor, sever)
  {
    CommonBitExactly(sever, inj.uncor);
  }

  lemma InjectionUnique(errs: seq<AerError>, dev: Function, rp: Function, inj: Injection, sever: bv32)
    requires Unique(errs)
    ensures Unique(Recorded(errs, dev, inj)) && Unique(Rooted(Recorded(errs, dev, inj), rp, inj, sever))
  {
    hide Merge, MergeRoot;
    var r := Ensure(errs, dev.domain, dev.bus, dev.devfn, dev.pos);
    EnsureUnique(errs, dev.domain, dev.bus, dev.devfn, dev.pos);
    var i := IndexOf(r, dev.domain, dev.bus, dev.devfn);
    UpdateUnique(r, i, Merge(r[i], inj));
    var mid := Recorded(errs, dev, inj);
    var q := Ensure(mid, rp.domain, rp.bus, rp.devfn, rp.pos);
    EnsureUnique(mid, rp.domain, rp.bus, rp.devfn, rp.pos);
    var j := IndexOf(q, rp.domain, rp.bus, rp.devfn);
    UpdateUnique(q, j, MergeRoot(q[j], inj, sever));
  }

  /** What a 32-bit read of a register of this function's record gives, 0 when there is no record. */
  function Seen(errs: seq<AerError>, f: Function, r: Reg): bv32 {
    var i := Find(errs, f.domain, f.bus, f.devfn);
    if i == |errs| then 0 else errs[i].Get(r)
  }

  lemma {:induction false} FindAfterPrepend(e: AerError, errs: seq<AerError>, f: Function)
    ensures Find([e] + errs, f.domain, f.bus, f.devfn)
         == if Matches(e, f.domain, f.bus, f.devfn) then 0 else 1 + Find(errs, f.domain, f.bus, f.devfn)
  {
    assert ([e] + errs)[1..] == errs;
  }

  lemma EnsureSeen(errs: seq<AerError>, f: Function, g: Function, r: Reg)
    requires f.domain >= 0
    ensures Seen(Ensure(errs, f.domain, f.bus, f.devfn, f.pos), g, r) == Seen(errs, g, r)
    ensures Find(Ensure(errs, f.domain, f.bus, f.devfn, f.pos), f.domain, f.bus, f.devfn)
          < |Ensure(errs, f.domain, f.bus, f.devfn, f.pos)|
  {
    FindAfterPrepend(NewError(f.domain, f.bus, f.devfn, f.pos), errs, g);
    FindAfterPrepend(NewError(f.domain, f.bus, f.devfn, f.pos), errs, f);
  }

  lemma UpdateSeen(errs: seq<AerError>, f: Function, e: AerError, g: Function, r: Reg)
    requires var i := Find(errs, f.domain, f.bus, f.devfn); i < |errs| && SameKey(e, errs[i])
    ensures Seen(errs[Find(errs, f.domain, f.bus, f.devfn) := e], g, r)
         == if SameFunction(f, g) then e.Get(r) else Seen(errs, g, r)
  {
    var i := Find(errs, f.domain, f.bus, f.devfn);
    FindSame(errs, errs[i := e], g.domain, g.bus, g.devfn);
  }

  /** What a register of the failing function becomes: status bits add up, the header log is replaced. */
  function Failing(was: bv32, inj: Injection, r: Reg): bv32 {
    match r
    case UncorStatus => Added(was, inj.uncor)
    case CorStatus => Added(was, inj.cor)
    case HeaderLog0 => inj.log0
    case HeaderLog1 => inj.log1
    case HeaderLog2 => inj.log2
    case HeaderLog3 => inj.log3
    case RootStatus => was
    case SourceId => was
  }

  /** What a register of the root port becomes. */
  function Reporting(was: bv32, inj: Injection, sever: bv32, r: Reg): bv32 {
    if r.RootStatus? then RootAfter(was, inj, sever)
    else if r.SourceId? then SourceAfter(was, inj)
    else was
  }

  lemma MergeGet(e: AerError, inj: Injection, r: Reg)
    ensures Merge(e, inj).Get(r) == Failing(e.Get(r), inj, r)
  {
    hide Added;
    match r
    case UncorStatus =>
    case CorStatus =>
    case HeaderLog0 =>
    case HeaderLog1 =>
    case HeaderLog2 =>
    case HeaderLog3 =>
    case RootStatus =>
    case SourceId =>
  }

  lemma MergeRootGet(e: AerError, inj: Injection, sever: bv32, r: Reg)
    ensures MergeRoot(e, inj, sever).Get(r) == Reporting(e.Get(r), inj, sever, r)
  {
    hide RootAfter, SourceAfter;
    match r
    case UncorStatus =>
    case CorStatus =>
    case HeaderLog0 =>
    case HeaderLog1 =>
    case HeaderLog2 =>
    case HeaderLog3 =>
    case RootStatus =>
    case SourceId =>
  }

  lemma RecordedSeen(errs: seq<AerError>, dev: Function, inj: Injection, g: Function, r: Reg)
    requires dev.domain >= 0
    ensures var was := Seen(errs, g, r);
            Seen(Recorded(errs, dev, inj), g, r) == if SameFunction(g, dev) then Failing(was, inj, r) else was
  {
    hide Seen, Find, Merge, Failing, AerError.Get;
    var r0 := Ensure(errs, dev.domain, dev.bus, dev.devfn, dev.pos);
    EnsureSeen(errs, dev, g, r);
    EnsureSeen(errs, dev, dev, r);
    var i := Find(r0, dev.domain, dev.bus, dev.devfn);
    UpdateSeen(r0, dev, Merge(r0[i], inj), g, r);
    MergeGet(r0[i], inj, r);
    SeenAt(r0, dev, r);
    SameSeen(errs, g, dev, r);
  }

  lemma RootedSeen(errs: seq<AerError>, rp: Function, inj: Injection, sever: bv32, g: Function, r: Reg)
    requires rp.domain >= 0
    ensures var was := Seen(errs, g, r);
            Seen(Rooted(errs, rp, inj, sever), g, r) == if SameFunction(g, rp) then Reporting(was, inj, sever, r) else was
  {
    hide Seen, Find, MergeRoot, Reporting, AerError.Get;
    var r1 := Ensure(errs, rp.domain, rp.bus, rp.devfn, rp.pos);
    EnsureSeen(errs, rp, g, r);
    EnsureSeen(errs, rp, rp, r);
    var j := Find(r1, rp.domain, rp.bus, rp.devfn);
    UpdateSeen(r1, rp, MergeRoot(r1[j], inj, sever), g, r);
    MergeRootGet(r1[j], inj, sever, r);
    SeenAt(r1, rp, r);
    SameSeen(errs, g, rp, r);
  }

  /** After an injection the failing function shows what was injected on top of what it showed, its root port shows
      the event in its root registers, and nothing else changes; the two may be the same function. */
  lemma InjectionIsSeen(errs: seq<AerError>, dev: Function, rp: Function, inj: Injection, sever: bv32, g: Function, r: Reg)
    requires dev.domain >= 0 && rp.domain >= 0
    ensures var was, now := Seen(errs, g, r), Seen(Rooted(Recorded(errs, dev, inj), rp, inj, sever), g, r);
            now == if r.RootStatus? || r.SourceId? then (if SameFunction(g, rp) then Reporting(was, inj, sever, r) else was)
                   else if SameFunction(g, dev) then Failing(was, inj, r) else was
  {
    hide RootAfter, SourceAfter, Seen, Recorded, Rooted;
    RecordedSeen(errs, dev, inj, g, r);
    RootedSeen(Recorded(errs, dev, inj), rp, inj, sever, g, r);
  }

  lemma SeenAt(errs: seq<AerError>, f: Function, r: Reg)
    requires Find(errs, f.domain, f.bus, f.devfn) < |errs|
    ensures Seen(errs, f, r) == errs[Find(errs, f.domain, f.bus, f.devfn)].Get(r)
  {}

  lemma SameSeen(errs: seq<AerError>, f: Function, g: Function, r: Reg)
    ensures SameFunction(f, g) ==> Seen(errs, f, r) == Seen(errs, g, r)
  {}

  // ----- where the registers are -----

  /** The register's place in the capability. */
  function Offset(r: Reg): int {
    match r
    case UncorStatus => 4
    case CorStatus => 16
    case HeaderLog0 => 28
    case HeaderLog1 => 32
    case HeaderLog2 => 36
    case HeaderLog3 => 40
    case RootStatus => 48
    case SourceId => 52
  }

  /** An access falls on a register exactly when it starts where that register is. */
  lemma TargetExact(e: AerError, where: int, r: Reg)
    ensures Target(e, where) == Some(r) <==> e.posCapErr != -1 && where == e.posCapErr + Offset(r)
  {
    match r
    case UncorStatus =>
    case CorStatus =>
    case HeaderLog0 =>
    case HeaderLog1 =>
    case HeaderLog2 =>
    case HeaderLog3 =>
    case RootStatus =>
    case SourceId =>
  }
}
