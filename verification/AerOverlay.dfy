/** Which operations each bus uses, and the list of the ones the injector replaced. */
module AerOverlay {
  import opened AerErrors

  /** A struct pci_ops, by identity: the injector's or one that was there before. */
  datatype Ops = Original(id: nat) | AerInj

  datatype Entry<B> = Entry(bus: B, ops: Ops)

  datatype State<B(==)> = State(ops: map<B, Ops>, list: seq<Entry<B>>)

  function FindOps<B(==)>(list: seq<Entry<B>>, bus: B): (r: Option<Ops>)
    ensures r.Some? ==> Entry(bus, r.value) in list
    ensures r.None? ==> forall i | 0 <= i < |list| :: list[i].bus != bus
  {
    if list == [] then None
    else if list[0].bus == bus then assert list[0] == Entry(bus, list[0].ops); Some(list[0].ops)
    else FindOps(list[1..], bus)
  }

  /** pci_bus_set_aer_ops, its memory granted. */
  function Install<B(==)>(s: State<B>, bus: B): State<B>
    requires bus in s.ops
  {
    State(s.ops[bus := AerInj], if s.ops[bus] == AerInj then s.list else [Entry(bus, s.ops[bus])] + s.list)
  }

  /** One turn of the loop in aer_inject_exit: the first entry goes back to its bus. */
  function PutBack<B(==)>(s: State<B>): State<B>
    requires s.list != []
  {
    State(s.ops[s.list[0].bus := s.list[0].ops], s.list[1..])
  }

  function Uninstall<B(==)>(s: State<B>): State<B>
    decreases |s.list|
  {
    if s.list == [] then s else Uninstall(PutBack(s))
  }

  /** At most one entry a bus, none of the injector's own operations, and one for exactly the buses that have
      those. */
  ghost predicate Inv<B>(s: State<B>) {
    && (forall i | 0 <= i < |s.list| :: s.list[i].ops.Original?)
    && (forall i | 0 <= i < |s.list| :: s.list[i].bus in s.ops && s.ops[s.list[i].bus] == AerInj)
    && (forall i, j | 0 <= i < j < |s.list| :: s.list[i].bus != s.list[j].bus)
    && (forall b | b in s.ops && s.ops[b] == AerInj :: FindOps(s.list, b).Some?)
  }

  /** The operations below the overlay. */
  function Underneath<B(==)>(s: State<B>, bus: B): Ops
    requires bus in s.ops
  {
    if s.ops[bus] == AerInj then (match FindOps(s.list, bus) case Some(ops) => ops case None => AerInj)
    else s.ops[bus]
  }

  lemma UnderneathIsOriginal<B>(s: State<B>, bus: B)
    requires Inv(s) && bus in s.ops
    ensures Underneath(s, bus).Original?
  {
    if s.ops[bus] == AerInj {
      var e := Entry(bus, FindOps(s.list, bus).value);
      assert e in s.list;
    }
  }

  lemma InstallInv<B>(s: State<B>, bus: B)
    requires Inv(s) && bus in s.ops
    ensures Inv(Install(s, bus))
    ensures forall b | b in s.ops :: Underneath(Install(s, bus), b) == Underneath(s, b)
  {
    if s.ops[bus] == AerInj {
      assert Install(s, bus) == s by { assert s.ops[bus := AerInj] == s.ops; }
    } else {
      InstallNew(s, bus);
    }
  }

  lemma InstallNew<B>(s: State<B>, bus: B)
    requires Inv(s) && bus in s.ops && s.ops[bus] != AerInj
    ensures Inv(Install(s, bus))
    ensures forall b | b in s.ops :: Underneath(Install(s, bus), b) == Underneath(s, b)
  {
    var t := Install(s, bus);
    assert t.list[1..] == s.list && t.list[0] == Entry(bus, s.ops[bus]);
    forall i | 0 <= i < |t.list| ensures t.list[i].ops.Original? && t.list[i].bus in t.ops && t.ops[t.list[i].bus] == AerInj {
      if i > 0 { assert t.list[i] == s.list[i - 1]; }
    }
    forall i, j | 0 <= i < j < |t.list| ensures t.list[i].bus != t.list[j].bus {
      assert t.list[j] == s.list[j - 1];
      if i > 0 { assert t.list[i] == s.list[i - 1]; }
    }
    forall b | b in t.ops && t.ops[b] == AerInj ensures FindOps(t.list, b).Some? {
      if b != bus { FindAfterHead(t.list, b); }
    }
    forall b | b in s.ops ensures Underneath(t, b) == Underneath(s, b) {
      if b != bus { FindAfterHead(t.list, b); }
    }
  }

  lemma FindAfterHead<B>(list: seq<Entry<B>>, b: B)
    requires list != [] && list[0].bus != b
    ensures FindOps(list, b) == FindOps(list[1..], b)
  {}

  lemma PutBackInv<B>(s: State<B>)
    requires Inv(s) && s.list != []
    ensures Inv(PutBack(s))
    ensures forall b | b in s.ops :: b in PutBack(s).ops && Underneath(PutBack(s), b) == Underneath(s, b)
  {
    var t := PutBack(s);
    forall i | 0 <= i < |t.list| ensures t.list[i].bus in t.ops && t.ops[t.list[i].bus] == AerInj && t.list[i].ops.Original? {
      assert t.list[i] == s.list[i + 1] && s.list[i + 1].bus != s.list[0].bus;
    }
    forall i, j | 0 <= i < j < |t.list| ensures t.list[i].bus != t.list[j].bus {
      assert s.list[i + 1].bus != s.list[j + 1].bus;
    }
    forall b | b in s.ops ensures b in t.ops && Underneath(t, b) == Underneath(s, b) {
      if b != s.list[0].bus { FindAfterHead(s.list, b); }
    }
    forall b | b in t.ops && t.ops[b] == AerInj ensures FindOps(t.list, b).Some? {
      FindAfterHead(s.list, b);
    }
  }

  lemma UninstallStep<B>(s: State<B>)
    requires Inv(s)
    ensures s.list == [] ==> Uninstall(s) == s
    ensures s.list != [] ==> Uninstall(s) == Uninstall(PutBack(s)) && s.list[0].bus in s.ops && Inv(PutBack(s))
  {
    if s.list != [] { PutBackInv(s); }
  }

  /** Unloading gives every bus back what is underneath. */
  lemma {:induction false} UninstallRestores<B>(s: State<B>)
    requires Inv(s)
    ensures Uninstall(s).list == [] && Uninstall(s).ops.Keys == s.ops.Keys
    ensures forall b | b in s.ops :: Uninstall(s).ops[b] == Underneath(s, b) && Underneath(s, b).Original?
    decreases |s.list|
  {
    forall b | b in s.ops ensures Underneath(s, b).Original? { UnderneathIsOriginal(s, b); }
    if s.list == [] {
      forall b | b in s.ops ensures s.ops[b] != AerInj {
        assert FindOps(s.list, b).None?;
      }
    } else {
      PutBackInv(s);
      UninstallRestores(PutBack(s));
    }
  }

  // ----- runs -----

  /** Injections install the overlay on a bus; the module may be unloaded and loaded again. Configuration accesses
      leave the overlay as it is. */
  datatype Step<B> = Installs(bus: B) | Unloads

  function AfterStep<B(==)>(s: State<B>, e: Step<B>): State<B> {
    match e
    case Installs(bus) => if bus in s.ops then Install(s, bus) else s
    case Unloads => Uninstall(s)
  }

  function Run<B(==)>(start: map<B, Ops>, steps: seq<Step<B>>): State<B> {
    if steps == [] then State(start, [])
    else AfterStep(Run(start, steps[..|steps| - 1]), steps[|steps| - 1])
  }

  /** After any run: the invariant, the operations a bus began with are the ones underneath, and unloading returns
      every bus to them. */
  lemma {:induction false} RunKeepsOriginals<B>(start: map<B, Ops>, steps: seq<Step<B>>)
    requires forall b | b in start :: start[b].Original?
    ensures var s := Run(start, steps);
            && Inv(s) && s.ops.Keys == start.Keys
            && (forall b | b in start :: Underneath(s, b) == start[b])
            && Uninstall(s) == State(start, [])
  {
    if steps == [] {
      FreshInv(start);
    } else {
      RunKeepsOriginals(start, steps[..|steps| - 1]);
      hide Inv, Uninstall, Underneath, Install;
      StepKeepsOriginals(start, Run(start, steps[..|steps| - 1]), steps[|steps| - 1]);
    }
    RestoresOriginals(start, Run(start, steps));
  }

  lemma StepKeepsOriginals<B>(start: map<B, Ops>, s: State<B>, e: Step<B>)
    requires Inv(s) && s.ops.Keys == start.Keys && forall b | b in start :: start[b].Original?
    requires forall b | b in start :: Underneath(s, b) == start[b]
    requires Uninstall(s) == State(start, [])
    ensures var t := AfterStep(s, e);
            Inv(t) && t.ops.Keys == start.Keys && forall b | b in start :: Underneath(t, b) == start[b]
  {
    hide Inv, Uninstall, Underneath;
    if e.Unloads? {
      FreshInv(start);
    } else if e.bus in s.ops {
      InstallInv(s, e.bus);
    }
  }

  lemma RestoresOriginals<B>(start: map<B, Ops>, s: State<B>)
    requires Inv(s) && s.ops.Keys == start.Keys && forall b | b in start :: Underneath(s, b) == start[b]
    ensures Uninstall(s) == State(start, [])
  {
    UninstallRestores(s);
    hide Inv, Uninstall, Underneath;
    assert Uninstall(s).ops == start;
  }

  lemma FreshInv<B>(start: map<B, Ops>)
    requires forall b | b in start :: start[b].Original?
    ensures Inv(State(start, [])) && forall b | b in start :: Underneath(State(start, []), b) == start[b]
  {}
}
