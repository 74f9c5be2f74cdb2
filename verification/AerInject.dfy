/** The AER injector: its two lists, the configuration accessors it puts on a bus, injection and unloading. */
module AerInject {
  import opened AerErrors
  import opened AerOverlay

  const ENOMEM := 12
  const EINVAL := 22

  class PciBus {
    const domain: int
    const number: nat
    var ops: Ops
    constructor (domain: int, number: nat, ops: Ops)
      ensures this.domain == domain && this.number == number && this.ops == ops
    {
      this.domain, this.number, this.ops := domain, number, ops;
    }
  }

  datatype Device = Device(bus: PciBus, devfn: nat, pos: int)
  {
    function Fn(): Function { Function(bus.domain, bus.number, devfn, pos) }
  }

  /** A call of some bus's own operations, with the operations that were installed during it. */
  datatype Call = Call(ops: Ops, installed: Ops, write: bool, bus: PciBus, devfn: nat, where: int, size: int, val: bv32)

  /** What the bus's own operation returns, and for a read the value it stores. */
  datatype Answer = Answer(rv: int, val: bv32)

  lemma {:induction false} FindIs(errs: seq<AerError>, domain: int, bus: nat, devfn: nat, i: nat)
    requires i <= |errs| && forall j | 0 <= j < i :: !Matches(errs[j], domain, bus, devfn)
    requires i < |errs| ==> Matches(errs[i], domain, bus, devfn)
    ensures Find(errs, domain, bus, devfn) == i
  {
    if i > 0 { FindIs(errs[1..], domain, bus, devfn, i - 1); }
  }

  lemma {:induction false} FindOpsIs<B>(list: seq<Entry<B>>, bus: B, i: nat)
    requires i <= |list| && forall j | 0 <= j < i :: list[j].bus != bus
    requires i < |list| ==> list[i].bus == bus
    ensures FindOps(list, bus) == if i < |list| then Some(list[i].ops) else None
  {
    if i > 0 { FindOpsIs(list[1..], bus, i - 1); }
  }

  class Injector {
    ghost const buses: set<PciBus>
    var einjected: seq<AerError>
    var pciBusOpsList: seq<Entry<PciBus>>
    ghost var calls: seq<Call>
    /** bus->ops of every bus, as a value. */
    ghost var opsOf: map<PciBus, Ops>

    constructor (ghost buses: set<PciBus>)
      requires forall b | b in buses :: b.ops.Original?
      ensures this.buses == buses && einjected == [] && pciBusOpsList == [] && calls == []
      ensures Mirrored() && Inv(View())
    {
      this.buses := buses;
      einjected, pciBusOpsList, calls := [], [], [];
      opsOf := map b | b in buses :: b.ops;
    }

    ghost predicate Mirrored()
      reads this`opsOf, buses`ops
    {
      opsOf.Keys == buses && forall b | b in buses :: opsOf[b] == b.ops
    }

    ghost function View(): State<PciBus>
      reads this`pciBusOpsList, this`opsOf
    {
      State(opsOf, pciBusOpsList)
    }

    /** Every bus has its place in `opsOf`, and the overlay's invariant holds. */
    ghost predicate Valid()
      reads this`pciBusOpsList, this`opsOf, buses`ops
    {
      Mirrored() && Inv(View())
    }

    /** The index of the record, or the length of the list. */
    method FindAerError(domain: int, bus: nat, devfn: nat) returns (i: nat)
      ensures i == Find(einjected, domain, bus, devfn)
    {
      i := 0;
      while i < |einjected| && !Matches(einjected[i], domain, bus, devfn)
        invariant i <= |einjected| && forall j | 0 <= j < i :: !Matches(einjected[j], domain, bus, devfn)
      {
        i := i + 1;
      }
      FindIs(einjected, domain, bus, devfn, i);
    }

    method FindPciBusOps(bus: PciBus) returns (ops: Option<Ops>)
      ensures ops == FindOps(pciBusOpsList, bus)
    {
      var i := 0;
      while i < |pciBusOpsList| && pciBusOpsList[i].bus != bus
        invariant i <= |pciBusOpsList| && forall j | 0 <= j < i :: pciBusOpsList[j].bus != bus
      {
        i := i + 1;
      }
      FindOpsIs(pciBusOpsList, bus, i);
      ops := if i < |pciBusOpsList| then Some(pciBusOpsList[i].ops) else None;
    }

    /** The register an access falls on, if any. */
    method FindShadow(bus: PciBus, devfn: nat, where: int, size: int) returns (p: Option<Place>)
      ensures p == Shadow(einjected, bus.domain, bus.number, devfn, where, size)
    {
      if size != 4 || bus.domain < 0 { return None; }
      var i := FindAerError(bus.domain, bus.number, devfn);
      if i == |einjected| { return None; }
      var target := Target(einjected[i], where);
      if target.None? { return None; }
      return Some(Place(i, target.value));
    }

    /** Call the bus's own operations with them temporarily installed. `answer` is what they do. */
    method CallOriginal(write: bool, bus: PciBus, devfn: nat, where: int, size: int, val: bv32, answer: Answer)
      returns (rv: int)
      requires bus in buses && bus.ops == AerInj && Valid()
      modifies bus`ops, this`calls
      ensures bus.ops == old(bus.ops) && rv == answer.rv
      ensures var under := Underneath(View(), bus);
              calls == old(calls) + [Call(under, under, write, bus, devfn, where, size, val)]
    {
      var ops := FindPciBusOps(bus);
      var myOps := bus.ops;
      bus.ops := ops.value;
      calls := calls + [Call(ops.value, bus.ops, write, bus, devfn, where, size, val)];
      rv := answer.rv;
      bus.ops := myOps;
    }

    /** aer_inj_read_config: the record's register if the access falls on one, otherwise exactly one call of the
        operations underneath, installed while it runs. Nothing else changes. */
    method ReadConfig(bus: PciBus, devfn: nat, where: int, size: int, answer: Answer) returns (rv: int, val: bv32)
      requires bus in buses && bus.ops == AerInj && Valid()
      modifies bus`ops, this`calls
      ensures Valid()
      ensures var p := Shadow(einjected, bus.domain, bus.number, devfn, where, size);
              if p.Some? then rv == 0 && val == einjected[p.value.index].Get(p.value.reg) && calls == old(calls)
              else
                var under := Underneath(View(), bus);
                && rv == answer.rv && val == answer.val
                && calls == old(calls) + [Call(under, under, false, bus, devfn, where, size, 0)]
    {
      var p := FindShadow(bus, devfn, where, size);
      if p.Some? { return 0, einjected[p.value.index].Get(p.value.reg); }
      rv := CallOriginal(false, bus, devfn, where, size, 0, answer);
      val := answer.val;
    }

    /** aer_inj_write_config likewise. */
    method WriteConfig(bus: PciBus, devfn: nat, where: int, size: int, val: bv32, answer: Answer) returns (rv: int)
      requires bus in buses && bus.ops == AerInj && Valid()
      modifies bus`ops, this`calls, this`einjected
      ensures Valid()
      ensures var p := old(Shadow(einjected, bus.domain, bus.number, devfn, where, size));
              if p.Some? then rv == 0 && einjected == Stored(old(einjected), p.value, val) && calls == old(calls)
              else
                var under := Underneath(View(), bus);
                && rv == answer.rv && einjected == old(einjected)
                && calls == old(calls) + [Call(under, under, true, bus, devfn, where, size, val)]
    {
      hide Inv, Shadow, Underneath, Stored;
      var p := FindShadow(bus, devfn, where, size);
      if p.Some? {
        Store(p.value, val);
        return 0;
      }
      rv := CallOriginal(true, bus, devfn, where, size, val, answer);
    }

    /** A status register takes the exclusive or, the others the value. */
    method Store(p: Place, val: bv32)
      requires p.index < |einjected|
      modifies this`einjected
      ensures einjected == Stored(old(einjected), p, val)
    {
      hide AerError.Set, AerError.Get, Toggled;
      var e := einjected[p.index];
      var sim := e.Get(p.reg);
      einjected := einjected[p.index := e.Set(p.reg, if Rw1cs(p.reg) then Toggled(sim, val) else val)];
    }

    /** pci_bus_set_ops: the kernel's exchange of a bus's operations. */
    method PciBusSetOps(bus: PciBus, ops: Ops) returns (was: Ops)
      requires bus in buses && Mirrored()
      modifies bus`ops, this`opsOf
      ensures Mirrored() && opsOf == old(opsOf)[bus := ops]
      ensures was == old(opsOf)[bus]
    {
      was := bus.ops;
      bus.ops := ops;
      opsOf := opsOf[bus := ops];
    }

    /** pci_bus_set_aer_ops; `granted` tells whether kmalloc found memory for the entry. */
    method SetAerOps(bus: PciBus, granted: bool) returns (ret: int)
      requires bus in buses && Valid()
      modifies bus`ops, this`pciBusOpsList, this`opsOf
      ensures ret == (if granted then 0 else -ENOMEM)
      ensures View() == if granted then Install(old(View()), bus) else old(View())
      ensures Valid()
    {
      if !granted { return -ENOMEM; }
      hide Inv;
      InstallInv(View(), bus);
      var ops := PciBusSetOps(bus, AerInj);
      if ops != AerInj { pciBusOpsList := [Entry(bus, ops)] + pciBusOpsList; }
      ret := 0;
    }

    method Pop() returns (entry: Option<Entry<PciBus>>)
      modifies this`pciBusOpsList
      ensures entry == if old(pciBusOpsList) == [] then None else Some(old(pciBusOpsList)[0])
      ensures pciBusOpsList == if old(pciBusOpsList) == [] then [] else old(pciBusOpsList)[1..]
    {
      if pciBusOpsList == [] { return None; }
      entry, pciBusOpsList := Some(pciBusOpsList[0]), pciBusOpsList[1..];
    }

    /** The loop of aer_inject_exit. */
    method PutAllBack()
      requires Valid()
      modifies this`pciBusOpsList, this`opsOf, buses`ops
      ensures Mirrored() && View() == Uninstall(old(View())) && pciBusOpsList == []
    {
      hide Inv, Uninstall;
      ghost var s := View();
      var entry := Pop();
      while entry.Some?
        invariant Inv(s) && Uninstall(s) == Uninstall(old(View())) && s.ops == opsOf && Mirrored()
        invariant s.list == if entry.Some? then [entry.value] + pciBusOpsList else pciBusOpsList
        invariant entry.None? ==> pciBusOpsList == []
        decreases |s.list|
      {
        UninstallStep(s);
        var _ := PciBusSetOps(entry.value.bus, entry.value.ops);
        s := PutBack(s);
        entry := Pop();
      }
      UninstallStep(s);
    }

    /** aer_inject_exit: every bus has again what was underneath, and both lists are empty. */
    method Exit()
      requires Valid()
      modifies this`pciBusOpsList, this`einjected, this`opsOf, buses`ops
      ensures Valid() && View() == Uninstall(old(View())) && einjected == [] && pciBusOpsList == []
      ensures forall b | b in buses :: b.ops == Underneath(old(View()), b) && b.ops.Original?
    {
      UninstallRestores(View());
      hide Underneath, Uninstall;
      PutAllBack();
      einjected := [];
    }

    /** The record of a function, made at the front of the list when there is none. */
    method EnsureError(dev: Device) returns (i: nat)
      modifies this`einjected
      ensures einjected == Ensure(old(einjected), dev.bus.domain, dev.bus.number, dev.devfn, dev.pos)
      ensures i == IndexOf(einjected, dev.bus.domain, dev.bus.number, dev.devfn) < |einjected|
    {
      var found := false;
      if dev.bus.domain >= 0 {
        i := FindAerError(dev.bus.domain, dev.bus.number, dev.devfn);
        found := i < |einjected|;
      }
      if !found {
        einjected := [NewError(dev.bus.domain, dev.bus.number, dev.devfn, dev.pos)] + einjected;
        i := 0;
      }
    }

    /** The record of the failing function. */
    method UpdateFailing(i: nat, inj: Injection)
      requires i < |einjected|
      modifies this`einjected
      ensures einjected == old(einjected)[i := Merge(old(einjected)[i], inj)]
    {
      hide Added;
      var err := einjected[i];
      err := err.(uncorStatus := Added(err.uncorStatus, inj.uncor));
      err := err.(corStatus := Added(err.corStatus, inj.cor));
      err := err.(headerLog0 := inj.log0);
      err := err.(headerLog1 := inj.log1);
      err := err.(headerLog2 := inj.log2);
      err := err.(headerLog3 := inj.log3);
      einjected := einjected[i := err];
    }

    /** The record of the root port: status bits and sources, class by class. */
    method UpdateRoot(j: nat, inj: Injection, sever: bv32)
      requires j < |einjected|
      modifies this`einjected
      ensures einjected == old(einjected)[j := MergeRoot(old(einjected)[j], inj, sever)]
    {
      hide CorRoot, UncorRoot, SetLow, SetHigh, RequesterId, Severe;
      var rperr := einjected[j];
      var rootStatus, sourceId := rperr.rootStatus, rperr.sourceId;
      if inj.cor != 0 {
        rootStatus := AddCorrectable(rootStatus);
        sourceId := SetLow(sourceId, RequesterId(inj));
      }
      if inj.uncor != 0 {
        rootStatus := AddUncorrectable(rootStatus, Severe(inj, sever));
        sourceId := SetHigh(sourceId, RequesterId(inj));
      }
      einjected := einjected[j := rperr.(rootStatus := rootStatus, sourceId := sourceId)];
    }

    static method AddCorrectable(status: bv32) returns (rootStatus: bv32)
      ensures rootStatus == CorRoot(status)
    {
      hide Has, Added;
      rootStatus := status;
      if Has(rootStatus, COR_RCV) {
        rootStatus := Added(rootStatus, MULTI_COR_RCV);
      } else {
        rootStatus := Added(rootStatus, COR_RCV);
      }
    }

    static method AddUncorrectable(status: bv32, fatal: bool) returns (rootStatus: bv32)
      ensures rootStatus == UncorRoot(status, fatal)
    {
      hide Has, Added;
      rootStatus := status;
      if Has(rootStatus, UNCOR_RCV) { rootStatus := Added(rootStatus, MULTI_UNCOR_RCV); }
      if fatal {
        rootStatus := Added(rootStatus, FATAL_RCV);
        if !Has(rootStatus, UNCOR_RCV) { rootStatus := Added(rootStatus, FIRST_FATAL); }
      } else {
        rootStatus := Added(rootStatus, NONFATAL_RCV);
      }
      rootStatus := Added(rootStatus, UNCOR_RCV);
    }

    /** The records of an injection; it is refused when all its bits are masked. */
    method InjectRecords(dev: Device, rp: Device, inj: Injection, sever: bv32, corMask: bv32, uncorMask: bv32,
                         maskOverride: bool) returns (masked: bool)
      modifies this`einjected
      ensures masked == (!maskOverride && (AllMasked(inj.cor, corMask) || AllMasked(inj.uncor, uncorMask)))
      ensures var recorded := Recorded(old(einjected), dev.Fn(), inj);
              einjected == if masked then recorded else Rooted(recorded, rp.Fn(), inj, sever)
      ensures old(Unique(einjected)) ==> Unique(einjected)
    {
      hide Merge, MergeRoot, Unique, Ensure, AllMasked;
      if Unique(einjected) { InjectionUnique(einjected, dev.Fn(), rp.Fn(), inj, sever); }
      var i := EnsureError(dev);
      UpdateFailing(i, inj);
      if !maskOverride && AllMasked(inj.cor, corMask) { return true; }
      if !maskOverride && AllMasked(inj.uncor, uncorMask) { return true; }
      var j := EnsureError(rp);
      UpdateRoot(j, inj, sever);
      return false;
    }

    /** aer_inject, from the records on: masks and severity were read from the device before, the memory for the
        records was granted, and `grants` tells the same of the two bus entries. An injection whose bits are all
        masked is refused after the failing function's record was changed and before any bus was touched. */
    method Inject(dev: Device, rp: Device, inj: Injection, sever: bv32, corMask: bv32, uncorMask: bv32,
                  maskOverride: bool, grants: (bool, bool)) returns (ret: int)
      requires dev.bus in buses && rp.bus in buses && Valid()
      modifies this`einjected, this`pciBusOpsList, this`opsOf, dev.bus`ops, rp.bus`ops
      ensures Valid()
      ensures old(Unique(einjected)) ==> Unique(einjected)
      ensures var masked := !maskOverride && (AllMasked(inj.cor, corMask) || AllMasked(inj.uncor, uncorMask));
              var recorded := Recorded(old(einjected), dev.Fn(), inj);
              && einjected == (if masked then recorded else Rooted(recorded, rp.Fn(), inj, sever))
              && ret == (if masked then -EINVAL else if grants.0 && grants.1 then 0 else -ENOMEM)
              && View() == (if masked || !grants.0 then old(View())
                            else if !grants.1 then Install(old(View()), dev.bus)
                            else Install(Install(old(View()), dev.bus), rp.bus))
    {
      hide Inv, Install, Recorded, Rooted, Unique, AllMasked;
      var masked := InjectRecords(dev, rp, inj, sever, corMask, uncorMask, maskOverride);
      if masked { return -EINVAL; }
      ret := SetAerOps(dev.bus, grants.0);
      if ret != 0 { return; }
      ret := SetAerOps(rp.bus, grants.1);
    }
  }
}
