/** What the registers of a root port tell of a run of injections and configuration writes. */
module AerHistory {
  import opened AerErrors

  // ----- the root error status, flag by flag -----

  datatype Flags = Flags(cor: bool, multiCor: bool, uncor: bool, multiUncor: bool, first: bool, nonFatal: bool, fatal: bool)

  function FlagsOf(status: bv32): Flags {
    Flags(Bit(status, 0), Bit(status, 1), Bit(status, 2), Bit(status, 3), Bit(status, 4), Bit(status, 5), Bit(status, 6))
  }

  /** The tests of the code are these. */
  lemma FlagsHas(status: bv32)
    ensures FlagsOf(status)
         == Flags(Has(status, COR_RCV), Has(status, MULTI_COR_RCV), Has(status, UNCOR_RCV), Has(status, MULTI_UNCOR_RCV),
                  Has(status, FIRST_FATAL), Has(status, NONFATAL_RCV), Has(status, FATAL_RCV))
  {}

  /** The bits an injection does not use. */
  function Others(status: bv32): bv32 { status & 0xffffff80 }

  lemma HasAdded(status: bv32, bits: bv32, bit: bv32)
    ensures Has(Added(status, bits), bit) == (Has(status, bit) || Has(bits, bit))
  {
    assert (status | bits) & bit == (status & bit) | (bits & bit);
  }

  lemma OthersAdded(status: bv32, bits: bv32)
    requires bits & 0xffffff80 == 0
    ensures Others(Added(status, bits)) == Others(status)
  {}

  function WithFlag(f: Flags, bit: bv32): Flags {
    Flags(f.cor || bit == COR_RCV, f.multiCor || bit == MULTI_COR_RCV, f.uncor || bit == UNCOR_RCV,
          f.multiUncor || bit == MULTI_UNCOR_RCV, f.first || bit == FIRST_FATAL,
          f.nonFatal || bit == NONFATAL_RCV, f.fatal || bit == FATAL_RCV)
  }

  /** Adding one of the seven bits sets its flag. */
  lemma FlagsAdded(status: bv32, bit: bv32)
    requires bit == COR_RCV || bit == MULTI_COR_RCV || bit == UNCOR_RCV || bit == MULTI_UNCOR_RCV
          || bit == FIRST_FATAL || bit == NONFATAL_RCV || bit == FATAL_RCV
    ensures FlagsOf(Added(status, bit)) == WithFlag(FlagsOf(status), bit)
    ensures Others(Added(status, bit)) == Others(status)
  {
    OneBit(bit);
    OthersAdded(status, bit);
    FlagsHas(status);
    FlagsHas(bit);
    FlagsHas(Added(status, bit));
    hide Has, Added, Others, FlagsOf;
    HasAdded(status, bit, COR_RCV);
    HasAdded(status, bit, MULTI_COR_RCV);
    HasAdded(status, bit, UNCOR_RCV);
    HasAdded(status, bit, MULTI_UNCOR_RCV);
    HasAdded(status, bit, FIRST_FATAL);
    HasAdded(status, bit, NONFATAL_RCV);
    HasAdded(status, bit, FATAL_RCV);
  }

  lemma OneBit(bit: bv32)
    requires bit == COR_RCV || bit == MULTI_COR_RCV || bit == UNCOR_RCV || bit == MULTI_UNCOR_RCV
          || bit == FIRST_FATAL || bit == NONFATAL_RCV || bit == FATAL_RCV
    ensures bit & 0xffffff80 == 0
    ensures FlagsOf(bit) == WithFlag(Flags(false, false, false, false, false, false, false), bit)
  {}

  /** The flags after a correctable error. */
  function FlagsCor(f: Flags): Flags { f.(cor := true, multiCor := f.multiCor || f.cor) }

  /** The flags after an uncorrectable error. */
  function FlagsUncor(f: Flags, now: bool): Flags {
    f.(uncor := true, multiUncor := f.multiUncor || f.uncor, first := f.first || (now && !f.uncor),
       nonFatal := f.nonFatal || !now, fatal := f.fatal || now)
  }

  lemma CorStep(status: bv32)
    ensures FlagsOf(CorRoot(status)) == FlagsCor(FlagsOf(status))
    ensures Others(CorRoot(status)) == Others(status)
  {
    hide Has, Added, Others, FlagsOf;
    FlagsHas(status);
    FlagsAdded(status, MULTI_COR_RCV);
    FlagsAdded(status, COR_RCV);
  }

  lemma UncorStep(status: bv32, now: bool)
    ensures FlagsOf(UncorRoot(status, now)) == FlagsUncor(FlagsOf(status), now)
    ensures Others(UncorRoot(status, now)) == Others(status)
  {
    hide Has, Added, Others, FlagsOf;
    FlagsHas(status);
    var s := if Has(status, UNCOR_RCV) then Added(status, MULTI_UNCOR_RCV) else status;
    FlagsAdded(status, MULTI_UNCOR_RCV);
    var f := Added(s, FATAL_RCV);
    FlagsHas(f);
    FlagsAdded(s, FATAL_RCV);
    FlagsAdded(s, NONFATAL_RCV);
    FlagsAdded(f, FIRST_FATAL);
    FlagsAdded(Added(s, NONFATAL_RCV), UNCOR_RCV);
    FlagsAdded(f, UNCOR_RCV);
    FlagsAdded(Added(f, FIRST_FATAL), UNCOR_RCV);
  }

  // ----- a list of injections below one root port -----

  /** An injection, with the severity mask of its device. */
  datatype Event = Event(inj: Injection, sever: bv32)

  function RootFrom(base: bv32, history: seq<Event>): bv32 {
    if history == [] then base
    else
      var e := history[|history| - 1];
      RootAfter(RootFrom(base, history[..|history| - 1]), e.inj, e.sever)
  }

  predicate IsCor(e: Event) { e.inj.cor != 0 }

  predicate IsUncor(e: Event) { e.inj.uncor != 0 }

  /** Some bit of the error is set in the severity mask. */
  ghost predicate Fatal(e: Event) { IsUncor(e) && CommonBit(e.inj.uncor, e.sever) }

  ghost predicate NonFatal(e: Event) { IsUncor(e) && !CommonBit(e.inj.uncor, e.sever) }

  ghost predicate AnyFatal(history: seq<Event>) { exists i | 0 <= i < |history| :: Fatal(history[i]) }

  ghost predicate AnyNonFatal(history: seq<Event>) { exists i | 0 <= i < |history| :: NonFatal(history[i]) }

  lemma AnyOfLast(history: seq<Event>)
    requires history != []
    ensures var before, e := history[..|history| - 1], history[|history| - 1];
            && AnyFatal(history) == (AnyFatal(before) || Fatal(e))
            && AnyNonFatal(history) == (AnyNonFatal(before) || NonFatal(e))
  {
    hide Fatal, NonFatal;
    var before, k := history[..|history| - 1], |history| - 1;
    if AnyFatal(before) {
      var i :| 0 <= i < k && Fatal(before[i]);
      assert Fatal(history[i]);
    }
    if AnyNonFatal(before) {
      var i :| 0 <= i < k && NonFatal(before[i]);
      assert NonFatal(history[i]);
    }
    if AnyFatal(history) {
      var i :| 0 <= i <= k && Fatal(history[i]);
      assert i < k ==> Fatal(before[i]);
    }
    if AnyNonFatal(history) {
      var i :| 0 <= i <= k && NonFatal(history[i]);
      assert i < k ==> NonFatal(before[i]);
    }
  }

  function Correctable(history: seq<Event>): nat {
    if history == [] then 0
    else Correctable(history[..|history| - 1]) + if IsCor(history[|history| - 1]) then 1 else 0
  }

  function Uncorrectable(history: seq<Event>): nat {
    if history == [] then 0
    else Uncorrectable(history[..|history| - 1]) + if IsUncor(history[|history| - 1]) then 1 else 0
  }

  /** Whether the first uncorrectable error was fatal. */
  ghost predicate FirstFatal(history: seq<Event>) {
    history != [] && if Uncorrectable(history[..|history| - 1]) == 0 then Fatal(history[|history| - 1])
                     else FirstFatal(history[..|history| - 1])
  }

  /** The flags after this many errors of each class, from the flags before. */
  function Summary(b: Flags, cor: nat, uncor: nat, first: bool, nonFatal: bool, fatal: bool): Flags {
    Flags(b.cor || cor > 0, b.multiCor || cor > 1 || (cor > 0 && b.cor),
          b.uncor || uncor > 0, b.multiUncor || uncor > 1 || (uncor > 0 && b.uncor),
          b.first || (!b.uncor && first), b.nonFatal || nonFatal, b.fatal || fatal)
  }

  ghost function Told(b: Flags, history: seq<Event>): Flags {
    Summary(b, Correctable(history), Uncorrectable(history), FirstFatal(history), AnyNonFatal(history), AnyFatal(history))
  }

  lemma SummaryNext(b: Flags, cor: nat, uncor: nat, first: bool, nonFatal: bool, fatal: bool, now: bool)
    requires uncor == 0 ==> !first
    ensures Summary(b, cor + 1, uncor, first, nonFatal, fatal) == FlagsCor(Summary(b, cor, uncor, first, nonFatal, fatal))
    ensures Summary(b, cor, uncor + 1, if uncor == 0 then now else first, nonFatal || !now, fatal || now)
         == FlagsUncor(Summary(b, cor, uncor, first, nonFatal, fatal), now)
  {}

  lemma {:induction false} FirstFatalNeedsOne(history: seq<Event>)
    ensures Uncorrectable(history) == 0 ==> !FirstFatal(history)
  {
    if history != [] { FirstFatalNeedsOne(history[..|history| - 1]); }
  }

  /** The flags after one more injection. */
  function FlagsAfter(f: Flags, e: Event): Flags {
    var g := if IsCor(e) then FlagsCor(f) else f;
    if IsUncor(e) then FlagsUncor(g, Severe(e.inj, e.sever)) else g
  }

  lemma RootStep(status: bv32, e: Event)
    ensures FlagsOf(RootAfter(status, e.inj, e.sever)) == FlagsAfter(FlagsOf(status), e)
    ensures Others(RootAfter(status, e.inj, e.sever)) == Others(status)
  {
    hide CorRoot, UncorRoot, FlagsOf, Others, Severe;
    CorStep(status);
    UncorStep(if e.inj.cor != 0 then CorRoot(status) else status, Severe(e.inj, e.sever));
  }

  /** What the last injection adds. */
  lemma LastCounts(history: seq<Event>)
    requires history != []
    ensures var h, e := history[..|history| - 1], history[|history| - 1];
            var now := Severe(e.inj, e.sever);
            && Correctable(history) == Correctable(h) + (if IsCor(e) then 1 else 0)
            && Uncorrectable(history) == Uncorrectable(h) + (if IsUncor(e) then 1 else 0)
            && FirstFatal(history) == (if IsUncor(e) && Uncorrectable(h) == 0 then now else FirstFatal(h))
            && AnyNonFatal(history) == (AnyNonFatal(h) || (IsUncor(e) && !now))
            && AnyFatal(history) == (AnyFatal(h) || (IsUncor(e) && now))
  {
    AnyOfLast(history);
    FirstFatalNeedsOne(history[..|history| - 1]);
    SevereExactly(history[|history| - 1].inj, history[|history| - 1].sever);
    hide AnyFatal, AnyNonFatal, Severe, IsCor, IsUncor, CommonBit;
  }

  lemma ToldNext(b: Flags, history: seq<Event>)
    requires history != []
    ensures Told(b, history) == FlagsAfter(Told(b, history[..|history| - 1]), history[|history| - 1])
  {
    var h, e := history[..|history| - 1], history[|history| - 1];
    LastCounts(history);
    FirstFatalNeedsOne(h);
    hide AnyFatal, AnyNonFatal, Severe, IsCor, IsUncor, Summary, FlagsCor, FlagsUncor, Correctable, Uncorrectable, FirstFatal;
    var now := Severe(e.inj, e.sever);
    SummaryNext(b, Correctable(h), Uncorrectable(h), FirstFatal(h), AnyNonFatal(h), AnyFatal(h), now);
    SummaryNext(b, Correctable(h) + 1, Uncorrectable(h), FirstFatal(h), AnyNonFatal(h), AnyFatal(h), now);
    assert now ==> (AnyNonFatal(h) || !now) == AnyNonFatal(h);
    assert !now ==> (AnyFatal(h) || now) == AnyFatal(h);
  }

  lemma {:induction false} RootTells(base: bv32, history: seq<Event>)
    ensures FlagsOf(RootFrom(base, history)) == Told(FlagsOf(base), history)
    ensures Others(RootFrom(base, history)) == Others(base)
  {
    if history == [] {
      NoneOfNothing();
    } else {
      var before, e := history[..|history| - 1], history[|history| - 1];
      RootTells(base, before);
      ToldNext(FlagsOf(base), history);
      RootStep(RootFrom(base, before), e);
      hide FlagsOf, Others, Told, FlagsAfter, RootAfter;
    }
  }

  lemma NoneOfNothing()
    ensures !AnyFatal([]) && !AnyNonFatal([])
  {}

  // ----- the source register -----

  function SourceFrom(base: bv32, history: seq<Event>): bv32 {
    if history == [] then base
    else SourceAfter(SourceFrom(base, history[..|history| - 1]), history[|history| - 1].inj)
  }

  /** The function that failed last in this way, `base` when none did. */
  function LastSource(base: bv32, history: seq<Event>, correctable: bool): bv32 {
    if history == [] then base
    else
      var inj := history[|history| - 1].inj;
      if (if correctable then inj.cor else inj.uncor) != 0 then RequesterId(inj)
      else LastSource(base, history[..|history| - 1], correctable)
  }

  lemma RequesterIdFits(inj: Injection)
    ensures RequesterId(inj) & 0xffff0000 == 0
    ensures RequesterId(inj) >> 8 == inj.bus as bv32 && RequesterId(inj) & 0xff == inj.devfn as bv32
  {}

  function Low(source: bv32): bv32 { source & 0xffff }

  function High(source: bv32): bv32 { source >> 16 }

  lemma HalvesSet(source: bv32, id: bv32)
    requires id & 0xffff0000 == 0
    ensures Low(SetLow(source, id)) == id && High(SetLow(source, id)) == High(source)
    ensures Low(SetHigh(source, id)) == Low(source) && High(SetHigh(source, id)) == id
  {}

  lemma {:induction false} SourceTells(base: bv32, history: seq<Event>)
    ensures Low(SourceFrom(base, history)) == LastSource(Low(base), history, true)
    ensures High(SourceFrom(base, history)) == LastSource(High(base), history, false)
  {
    hide RequesterId, Low, High, SetLow, SetHigh;
    if history != [] {
      var before, inj := history[..|history| - 1], history[|history| - 1].inj;
      SourceTells(base, before);
      RequesterIdFits(inj);
      var source := SourceFrom(base, before);
      HalvesSet(source, RequesterId(inj));
      HalvesSet(SetLow(source, RequesterId(inj)), RequesterId(inj));
    }
  }

  // ----- runs -----

  /** An injection, refused when `masked`, or a configuration write to a function whose bus has the injector's
      operations. */
  datatype Step =
    | Injects(dev: Function, rp: Function, inj: Injection, sever: bv32, masked: bool)
    | Writes(f: Function, where: int, size: int, val: bv32)
  {
    predicate Valid() { Injects? ==> dev.domain >= 0 && rp.domain >= 0 }
  }

  ghost predicate AllValid(run: seq<Step>) { forall i | 0 <= i < |run| :: run[i].Valid() }

  function After(errs: seq<AerError>, e: Step): seq<AerError> {
    match e
    case Injects(dev, rp, inj, sever, masked) =>
      var r := Recorded(errs, dev, inj);
      if masked then r else Rooted(r, rp, inj, sever)
    case Writes(f, where, size, val) =>
      (match Shadow(errs, f.domain, f.bus, f.devfn, where, size)
       case None => errs
       case Some(p) => Stored(errs, p, val))
  }

  /** The records after a run of the loaded module. */
  function Records(run: seq<Step>): seq<AerError> {
    if run == [] then [] else After(Records(run[..|run| - 1]), run[|run| - 1])
  }

  /** The step writes this register of this function. */
  predicate Hits(errs: seq<AerError>, e: Step, g: Function, r: Reg) {
    e.Writes? && SameFunction(e.f, g)
    && (match Shadow(errs, g.domain, g.bus, g.devfn, e.where, e.size) case None => false case Some(p) => p.reg == r)
  }

  /** The step reports an error to this root port. */
  predicate Reports(e: Step, g: Function) { e.Injects? && !e.masked && SameFunction(g, e.rp) }

  /** What the last write to the register left in it, 0 when there was none. */
  function Base(run: seq<Step>, g: Function, r: Reg): bv32 {
    if run == [] then 0
    else
      var before, e := run[..|run| - 1], run[|run| - 1];
      if !Hits(Records(before), e, g, r) then Base(before, g, r)
      else if Rw1cs(r) then Toggled(Seen(Records(before), g, r), e.val) else e.val
  }

  /** What was reported to this root port since. */
  function Since(run: seq<Step>, g: Function, r: Reg): seq<Event> {
    if run == [] then []
    else
      var before, e := run[..|run| - 1], run[|run| - 1];
      if Hits(Records(before), e, g, r) then []
      else if Reports(e, g) then Since(before, g, r) + [Event(e.inj, e.sever)]
      else Since(before, g, r)
  }

  lemma WriteSeen(errs: seq<AerError>, e: Step, g: Function, r: Reg)
    requires e.Writes?
    ensures Seen(After(errs, e), g, r)
         == if !Hits(errs, e, g, r) then Seen(errs, g, r)
            else if Rw1cs(r) then Toggled(Seen(errs, g, r), e.val) else e.val
  {
    hide Toggled, Target, Find;
    var p := Shadow(errs, e.f.domain, e.f.bus, e.f.devfn, e.where, e.size);
    if p.Some? {
      var i := p.value.index;
      assert i == Find(errs, e.f.domain, e.f.bus, e.f.devfn);
      UpdateSeen(errs, e.f, Written(errs[i], p.value.reg, e.val), g, r);
      SeenAt(errs, e.f, r);
      SameSeen(errs, e.f, g, r);
    }
  }

  /** The two root registers hold the last value written with everything reported since folded in. */
  lemma {:induction false} RunRootSeen(run: seq<Step>, g: Function)
    requires AllValid(run)
    ensures Seen(Records(run), g, RootStatus) == RootFrom(Base(run, g, RootStatus), Since(run, g, RootStatus))
  {
    if run != [] {
      var before, e := run[..|run| - 1], run[|run| - 1];
      RunRootSeen(before, g);
      StepSeen(Records(before), e, g);
      RecordsLast(run);
      hide Records, After, Seen, Hits, RootAfter, Toggled;
      if e.Injects? { FoldNext(Base(before, g, RootStatus), Since(before, g, RootStatus), Event(e.inj, e.sever)); }
    }
  }

  lemma {:induction false} RunSourceSeen(run: seq<Step>, g: Function)
    requires AllValid(run)
    ensures Seen(Records(run), g, SourceId) == SourceFrom(Base(run, g, SourceId), Since(run, g, SourceId))
  {
    if run != [] {
      var before, e := run[..|run| - 1], run[|run| - 1];
      RunSourceSeen(before, g);
      StepSeen(Records(before), e, g);
      RecordsLast(run);
      hide Records, After, Seen, Hits, SourceAfter, Toggled;
      if e.Injects? { FoldNext(Base(before, g, SourceId), Since(before, g, SourceId), Event(e.inj, e.sever)); }
    }
  }

  lemma RecordsLast(run: seq<Step>)
    requires run != []
    ensures Records(run) == After(Records(run[..|run| - 1]), run[|run| - 1])
  {}

  lemma FoldNext(base: bv32, history: seq<Event>, e: Event)
    ensures RootFrom(base, history + [e]) == RootAfter(RootFrom(base, history), e.inj, e.sever)
    ensures SourceFrom(base, history + [e]) == SourceAfter(SourceFrom(base, history), e.inj)
  {
    assert (history + [e])[..|history|] == history;
  }

  lemma StepSeen(errs: seq<AerError>, e: Step, g: Function)
    requires e.Valid()
    ensures var was, now := Seen(errs, g, RootStatus), Seen(After(errs, e), g, RootStatus);
            now == if Hits(errs, e, g, RootStatus) then Toggled(was, e.val)
                   else if Reports(e, g) then RootAfter(was, e.inj, e.sever) else was
    ensures var was, now := Seen(errs, g, SourceId), Seen(After(errs, e), g, SourceId);
            now == if Hits(errs, e, g, SourceId) then e.val
                   else if Reports(e, g) then SourceAfter(was, e.inj) else was
  {
    hide Seen, Recorded, Rooted, RootAfter, SourceAfter, Toggled;
    match e
    case Writes(f, where, size, val) =>
      WriteSeen(errs, e, g, RootStatus);
      WriteSeen(errs, e, g, SourceId);
    case Injects(dev, rp, inj, sever, masked) =>
      RecordedSeen(errs, dev, inj, g, RootStatus);
      RecordedSeen(errs, dev, inj, g, SourceId);
      InjectionIsSeen(errs, dev, rp, inj, sever, g, RootStatus);
      InjectionIsSeen(errs, dev, rp, inj, sever, g, SourceId);
  }

  /** In every run of injections, masked ones and other root ports included, and configuration writes: the root error
      status tells, of what was reported since it was last written, whether there were correctable errors and several
      of them, the same of uncorrectable ones, whether any was fatal, any not, and whether the first uncorrectable
      one was fatal; flags the write left stay, and so do all other bits. */
  lemma RootStatusRemembers(run: seq<Step>, g: Function)
    requires AllValid(run)
    ensures var base, since := Base(run, g, RootStatus), Since(run, g, RootStatus);
            var status := Seen(Records(run), g, RootStatus);
            FlagsOf(status) == Told(FlagsOf(base), since) && Others(status) == Others(base)
  {
    RunRootSeen(run, g);
    RootTells(Base(run, g, RootStatus), Since(run, g, RootStatus));
  }

  /** And its source register names the function that reported the last correctable error since the register was
      written in its low half and the one that reported the last uncorrectable error in its high half. */
  lemma SourceRemembers(run: seq<Step>, g: Function)
    requires AllValid(run)
    ensures var base, since := Base(run, g, SourceId), Since(run, g, SourceId);
            var source := Seen(Records(run), g, SourceId);
            && Low(source) == LastSource(Low(base), since, true)
            && High(source) == LastSource(High(base), since, false)
  {
    RunSourceSeen(run, g);
    SourceTells(Base(run, g, SourceId), Since(run, g, SourceId));
  }

  // ----- which accesses are shadowed -----

  /** The function took part in an injection. */
  predicate Named(run: seq<Step>, g: Function) {
    run != [] && (Named(run[..|run| - 1], g) || Names(run[|run| - 1], g))
  }

  predicate Names(e: Step, g: Function) { e.Injects? && (SameFunction(g, e.dev) || Reports(e, g)) }

  /** The run always gives the function the same capability. */
  ghost predicate Consistent(run: seq<Step>, g: Function) {
    forall i | 0 <= i < |run| && run[i].Injects? ::
      (SameFunction(g, run[i].dev) ==> run[i].dev.pos == g.pos) && (SameFunction(g, run[i].rp) ==> run[i].rp.pos == g.pos)
  }

  /** The function's record: there is one or not, and its capability is the function's. */
  predicate Placed(errs: seq<AerError>, g: Function, named: bool) {
    var i := Find(errs, g.domain, g.bus, g.devfn);
    (i < |errs| <==> named) && (i < |errs| ==> errs[i].posCapErr == g.pos)
  }

  lemma EnsurePlaced(errs: seq<AerError>, f: Function, g: Function, named: bool)
    requires f.domain >= 0 && Placed(errs, g, named) && (SameFunction(g, f) ==> f.pos == g.pos)
    ensures Placed(Ensure(errs, f.domain, f.bus, f.devfn, f.pos), g, named || SameFunction(g, f))
  {
    FindAfterPrepend(NewError(f.domain, f.bus, f.devfn, f.pos), errs, g);
  }

  lemma UpdatePlaced(errs: seq<AerError>, i: nat, e: AerError, g: Function, named: bool)
    requires i < |errs| && SameKey(e, errs[i]) && e.posCapErr == errs[i].posCapErr && Placed(errs, g, named)
    ensures Placed(errs[i := e], g, named)
  {
    FindSame(errs, errs[i := e], g.domain, g.bus, g.devfn);
  }

  lemma StepPlaced(errs: seq<AerError>, e: Step, g: Function, named: bool)
    requires e.Valid() && Placed(errs, g, named) && Consistent([e], g)
    ensures Placed(After(errs, e), g, named || Names(e, g))
  {
    hide Placed, Merge, MergeRoot, Written, Ensure;
    assert [e][0] == e;
    match e
    case Writes(f, where, size, val) =>
      var p := Shadow(errs, f.domain, f.bus, f.devfn, where, size);
      if p.Some? {
        WrittenKey(errs[p.value.index], p.value.reg, val);
        UpdatePlaced(errs, p.value.index, Written(errs[p.value.index], p.value.reg, val), g, named);
      }
    case Injects(dev, rp, inj, sever, masked) =>
      EnsurePlaced(errs, dev, g, named);
      var r0 := Ensure(errs, dev.domain, dev.bus, dev.devfn, dev.pos);
      var i := IndexOf(r0, dev.domain, dev.bus, dev.devfn);
      UpdatePlaced(r0, i, Merge(r0[i], inj), g, named || SameFunction(g, dev));
      if !masked {
        var mid := Recorded(errs, dev, inj);
        EnsurePlaced(mid, rp, g, named || SameFunction(g, dev));
        var r1 := Ensure(mid, rp.domain, rp.bus, rp.devfn, rp.pos);
        var j := IndexOf(r1, rp.domain, rp.bus, rp.devfn);
        UpdatePlaced(r1, j, MergeRoot(r1[j], inj, sever), g, named || Names(e, g));
      }
  }

  lemma WrittenKey(e: AerError, r: Reg, val: bv32)
    ensures SameKey(Written(e, r, val), e) && Written(e, r, val).posCapErr == e.posCapErr
  {}

  lemma {:induction false} RunPlaced(run: seq<Step>, g: Function)
    requires AllValid(run) && Consistent(run, g)
    ensures Placed(Records(run), g, Named(run, g))
  {
    if run != [] {
      var before, e := run[..|run| - 1], run[|run| - 1];
      RunPlaced(before, g);
      StepPlaced(Records(before), e, g, Named(before, g));
    }
  }

  /** The register of the function's record that an access to the function reaches. */
  function Reached(errs: seq<AerError>, g: Function, where: int, size: int): Option<Reg> {
    match Shadow(errs, g.domain, g.bus, g.devfn, where, size)
    case None => None
    case Some(p) => Some(p.reg)
  }

  /** In every run an access to a function with a capability is answered by its record exactly when it is four bytes
      wide, the function took part in an injection, and it starts at a register of the capability; that register is
      then the one it reaches. */
  lemma AccessShadowed(run: seq<Step>, g: Function, where: int, size: int, r: Reg)
    requires AllValid(run) && Consistent(run, g) && g.domain >= 0 && g.pos > 0
    ensures Reached(Records(run), g, where, size) == Some(r)
       <==> size == 4 && Named(run, g) && where == g.pos + Offset(r)
  {
    RunPlaced(run, g);
    var errs := Records(run);
    var i := Find(errs, g.domain, g.bus, g.devfn);
    hide Records, Named, Find, Target;
    if i < |errs| { TargetExact(errs[i], where, r); }
  }
}
