/** Lowering of expressions to straight-line code, with double arithmetic left abstract. */
module KalCodegen {
  import opened KalGrammar

  // ----- the target -----

  /** An operand: a constant, an argument of the function, or the result of an earlier instruction. */
  datatype Value = Const(text: string) | Arg(i: nat) | Reg(i: nat)

  /** Instruction k defines Reg(k). */
  datatype Instr =
    | FAdd(l: Value, r: Value)
    | FSub(l: Value, r: Value)
    | FMul(l: Value, r: Value)
    | FCmpULT(l: Value, r: Value)
    | UIToFP(b: Value)
    | CallF(callee: string, args: seq<Value>)

  /** Arithmetic on some type D of doubles, and calls that read and change some world W. */
  datatype Ops<!D, !W> = Ops(
    num: string -> D,
    add: (D, D) -> D,
    sub: (D, D) -> D,
    mul: (D, D) -> D,
    ult: (D, D) -> bool,
    ofBool: bool -> D,
    call: (W, string, seq<D>) -> (W, D))

  datatype Cell<D> = F(d: D) | B(b: bool)

  datatype Machine<D, W> = Machine(world: W, regs: seq<Cell<D>>)

  function AsDouble<D, W>(ops: Ops<D, W>, c: Cell<D>): D {
    match c case F(d) => d case B(b) => ops.ofBool(b)
  }

  function Operand<D, W>(ops: Ops<D, W>, actuals: seq<D>, m: Machine<D, W>, v: Value): D {
    match v
    case Const(text) => ops.num(text)
    case Arg(i) => if i < |actuals| then actuals[i] else ops.num("")
    case Reg(i) => if i < |m.regs| then AsDouble(ops, m.regs[i]) else ops.num("")
  }

  function Operands<D, W>(ops: Ops<D, W>, actuals: seq<D>, m: Machine<D, W>, vs: seq<Value>): seq<D> {
    seq(|vs|, i requires 0 <= i < |vs| => Operand(ops, actuals, m, vs[i]))
  }

  function Define<D, W>(m: Machine<D, W>, c: Cell<D>): Machine<D, W> { m.(regs := m.regs + [c]) }

  function Execute<D, W>(ops: Ops<D, W>, actuals: seq<D>, m: Machine<D, W>, i: Instr): Machine<D, W> {
    match i
    case FAdd(l, r) => Define(m, F(ops.add(Operand(ops, actuals, m, l), Operand(ops, actuals, m, r))))
    case FSub(l, r) => Define(m, F(ops.sub(Operand(ops, actuals, m, l), Operand(ops, actuals, m, r))))
    case FMul(l, r) => Define(m, F(ops.mul(Operand(ops, actuals, m, l), Operand(ops, actuals, m, r))))
    case FCmpULT(l, r) => Define(m, B(ops.ult(Operand(ops, actuals, m, l), Operand(ops, actuals, m, r))))
    case UIToFP(b) => Define(m, F(Operand(ops, actuals, m, b)))
    case CallF(callee, args) =>
      var (world, d) := ops.call(m.world, callee, Operands(ops, actuals, m, args));
      Machine(world, m.regs + [F(d)])
  }

  function Run<D, W>(ops: Ops<D, W>, actuals: seq<D>, m: Machine<D, W>, code: seq<Instr>): (r: Machine<D, W>)
    ensures |r.regs| == |m.regs| + |code|
  {
    if code == [] then m
    else Execute(ops, actuals, Run(ops, actuals, m, code[..|code| - 1]), code[|code| - 1])
  }

  // ----- the meaning of an expression -----

  /** Every name is bound, every function known with as many parameters as it is given, every operator known. */
  predicate Resolves(e: Expr, names: set<string>, arity: map<string, nat>) {
    match e
    case Num(_) => true
    case Variable(name) => name in names
    case Binary(op, l, r) => op in {'+', '-', '*', '<'} && Resolves(l, names, arity) && Resolves(r, names, arity)
    case Call(callee, args) =>
      && callee in arity && arity[callee] == |args|
      && forall i | 0 <= i < |args| :: Resolves(args[i], names, arity)
  }

  /** Direct evaluation, left operand before right, arguments in order. */
  function Eval<D, W>(ops: Ops<D, W>, env: map<string, D>, w: W, e: Expr): (W, D)
    decreases e, 0
  {
    match e
    case Num(text) => (w, ops.num(text))
    case Variable(name) => (w, if name in env then env[name] else ops.num(""))
    case Binary(op, l, r) =>
      var (w1, a) := Eval(ops, env, w, l);
      var (w2, b) := Eval(ops, env, w1, r);
      (w2, match op
           case '+' => ops.add(a, b)
           case '-' => ops.sub(a, b)
           case '*' => ops.mul(a, b)
           case _ => ops.ofBool(ops.ult(a, b)))
    case Call(callee, args) =>
      var (w1, ds) := EvalArgs(ops, env, w, args);
      ops.call(w1, callee, ds)
  }

  function EvalArgs<D, W>(ops: Ops<D, W>, env: map<string, D>, w: W, args: seq<Expr>): (W, seq<D>)
    decreases args, 1
  {
    if args == [] then (w, [])
    else
      var (w1, ds) := EvalArgs(ops, env, w, args[..|args| - 1]);
      var (w2, d) := Eval(ops, env, w1, args[|args| - 1]);
      (w2, ds + [d])
  }

  // ----- code generation -----

  datatype Maybe<+T> = Nothing | Just(value: T)

  /** What codegen returns, and the code of the block after it; null is Nothing. */
  function Gen(e: Expr, names: map<string, Value>, arity: map<string, nat>, code: seq<Instr>): (r: (Maybe<Value>, seq<Instr>))
    ensures code <= r.1
    decreases e, 0
  {
    match e
    case Num(text) => (Just(Const(text)), code)
    case Variable(name) => (if name in names then Just(names[name]) else Nothing, code)
    case Binary(op, l, r) =>
      var (a, c1) := Gen(l, names, arity, code);
      var (b, c2) := Gen(r, names, arity, c1);
      if a == Nothing || b == Nothing then (Nothing, c2) else Combine(op, a.value, b.value, c2)
    case Call(callee, args) =>
      if callee !in arity || arity[callee] != |args| then (Nothing, code)
      else
        var (vs, c1) := GenArgs(args, names, arity, code);
        if vs == Nothing then (Nothing, c1) else (Just(Reg(|c1|)), c1 + [CallF(callee, vs.value)])
  }

  /** The instructions of one operator. */
  function Combine(op: char, a: Value, b: Value, code: seq<Instr>): (r: (Maybe<Value>, seq<Instr>))
    ensures code <= r.1
  {
    match op
    case '+' => (Just(Reg(|code|)), code + [FAdd(a, b)])
    case '-' => (Just(Reg(|code|)), code + [FSub(a, b)])
    case '*' => (Just(Reg(|code|)), code + [FMul(a, b)])
    case '<' => (Just(Reg(|code| + 1)), code + [FCmpULT(a, b), UIToFP(Reg(|code|))])
    case _ => (Nothing, code)
  }

  /** The argument loop: it stops at the first argument that fails. */
  function GenArgs(args: seq<Expr>, names: map<string, Value>, arity: map<string, nat>, code: seq<Instr>): (r: (Maybe<seq<Value>>, seq<Instr>))
    ensures code <= r.1
    decreases args, 1
  {
    if args == [] then (Just([]), code)
    else
      var (vs, c1) := GenArgs(args[..|args| - 1], names, arity, code);
      if vs == Nothing then (Nothing, c1)
      else
        var (v, c2) := Gen(args[|args| - 1], names, arity, c1);
        if v == Nothing then (Nothing, c2) else (Just(vs.value + [v.value]), c2)
  }

  // ----- success -----

  /** Codegen succeeds exactly when everything resolves. */
  lemma {:induction false} GenSucceeds(e: Expr, names: map<string, Value>, arity: map<string, nat>, code: seq<Instr>)
    ensures Gen(e, names, arity, code).0 != Nothing <==> Resolves(e, names.Keys, arity)
    decreases e, 0
  {
    match e
    case Num(_) =>
    case Variable(_) =>
    case Binary(op, l, r) =>
      GenSucceeds(l, names, arity, code);
      GenSucceeds(r, names, arity, Gen(l, names, arity, code).1);
    case Call(callee, args) =>
      GenArgsSucceeds(args, names, arity, code);
  }

  lemma {:induction false} GenArgsSucceeds(args: seq<Expr>, names: map<string, Value>, arity: map<string, nat>, code: seq<Instr>)
    ensures GenArgs(args, names, arity, code).0 != Nothing <==>
            forall i | 0 <= i < |args| :: Resolves(args[i], names.Keys, arity)
    decreases args, 1
  {
    if args != [] {
      var k := |args| - 1;
      GenArgsSucceeds(args[..k], names, arity, code);
      GenSucceeds(args[k], names, arity, GenArgs(args[..k], names, arity, code).1);
      assert forall i | 0 <= i < k :: args[..k][i] == args[i];
    }
  }

  // ----- meaning -----

  /** The operand of every bound name, whatever has been computed, is the name's value. */
  ghost predicate Binds<D, W>(ops: Ops<D, W>, actuals: seq<D>, names: map<string, Value>, env: map<string, D>) {
    names.Keys == env.Keys &&
    forall x | x in names :: names[x].Arg? && names[x].i < |actuals| && actuals[names[x].i] == env[x]
  }

  lemma {:induction false} RunAppend<D, W>(ops: Ops<D, W>, actuals: seq<D>, m: Machine<D, W>, a: seq<Instr>, b: seq<Instr>)
    ensures Run(ops, actuals, m, a + b) == Run(ops, actuals, Run(ops, actuals, m, a), b)
    decreases |b|
  {
    if b == [] {
      assert a + b == a;
    } else {
      assert (a + b)[..|a + b| - 1] == a + b[..|b| - 1];
      RunAppend(ops, actuals, m, a, b[..|b| - 1]);
    }
  }

  /** An operand that names a register names one already defined. */
  ghost predicate Placed<D, W>(v: Value, m: Machine<D, W>) { v.Reg? ==> v.i < |m.regs| }

  lemma OperandStays<D, W>(ops: Ops<D, W>, actuals: seq<D>, m: Machine<D, W>, m': Machine<D, W>, v: Value)
    requires Placed(v, m) && m.regs <= m'.regs
    ensures Placed(v, m') && Operand(ops, actuals, m', v) == Operand(ops, actuals, m, v)
  {}

  /** Running a whole block from its start. */
  function RunBlock<D, W>(ops: Ops<D, W>, actuals: seq<D>, w: W, code: seq<Instr>): (m: Machine<D, W>)
    ensures |m.regs| == |code|
  {
    Run(ops, actuals, Machine(w, []), code)
  }

  /** One more instruction. */
  lemma RunSnoc<D, W>(ops: Ops<D, W>, actuals: seq<D>, w: W, code: seq<Instr>, i: Instr)
    ensures RunBlock(ops, actuals, w, code + [i]) == Execute(ops, actuals, RunBlock(ops, actuals, w, code), i)
  {
    assert (code + [i])[..|code|] == code;
  }

  /** After code was extended: the result is the value of e, evaluated where the earlier code ended. */
  ghost predicate Means<D, W>(ops: Ops<D, W>, actuals: seq<D>, env: map<string, D>, e: Expr,
                              m: Machine<D, W>, m': Machine<D, W>, v: Value) {
    m.regs <= m'.regs && Placed(v, m') && Eval(ops, env, m.world, e) == (m'.world, Operand(ops, actuals, m', v))
  }

  lemma CombineMeans<D, W>(ops: Ops<D, W>, actuals: seq<D>, w: W, op: char, a: Value, b: Value, code: seq<Instr>)
    requires op in {'+', '-', '*', '<'}
    requires var m := RunBlock(ops, actuals, w, code); Placed(a, m) && Placed(b, m)
    ensures var m := RunBlock(ops, actuals, w, code);
            var (v, code') := Combine(op, a, b, code);
            var m' := RunBlock(ops, actuals, w, code');
            var x, y := Operand(ops, actuals, m, a), Operand(ops, actuals, m, b);
            && m'.world == m.world && m.regs <= m'.regs && v != Nothing && Placed(v.value, m')
            && Operand(ops, actuals, m', v.value) ==
                 if op == '+' then ops.add(x, y) else if op == '-' then ops.sub(x, y)
                 else if op == '*' then ops.mul(x, y) else ops.ofBool(ops.ult(x, y))
  {
    if op == '<' {
      RunSnoc(ops, actuals, w, code, FCmpULT(a, b));
      RunSnoc(ops, actuals, w, code + [FCmpULT(a, b)], UIToFP(Reg(|code|)));
      assert code + [FCmpULT(a, b)] + [UIToFP(Reg(|code|))] == code + [FCmpULT(a, b), UIToFP(Reg(|code|))];
    } else {
      RunSnoc(ops, actuals, w, code, FAdd(a, b));
      RunSnoc(ops, actuals, w, code, FSub(a, b));
      RunSnoc(ops, actuals, w, code, FMul(a, b));
    }
  }

  /** Code generation preserves meaning, in any block and for any arithmetic and calls. */
  lemma {:induction false} GenMeans<D, W>(ops: Ops<D, W>, actuals: seq<D>, names: map<string, Value>, env: map<string, D>,
                                          arity: map<string, nat>, w: W, e: Expr, code: seq<Instr>)
    requires Binds<D, W>(ops, actuals, names, env) && Gen(e, names, arity, code).0 != Nothing
    ensures var (v, code') := Gen(e, names, arity, code);
            Means(ops, actuals, env, e, RunBlock(ops, actuals, w, code), RunBlock(ops, actuals, w, code'), v.value)
    decreases e, 0
  {
    match e
    case Num(_) =>
    case Variable(_) =>
    case Binary(op, l, r) =>
      hide RunBlock, Execute, Combine;
      var (a, c1) := Gen(l, names, arity, code);
      var (b, c2) := Gen(r, names, arity, c1);
      GenMeans(ops, actuals, names, env, arity, w, l, code);
      GenMeans(ops, actuals, names, env, arity, w, r, c1);
      OperandStays(ops, actuals, RunBlock(ops, actuals, w, c1), RunBlock(ops, actuals, w, c2), a.value);
      GenSucceeds(e, names, arity, code);
      CombineMeans(ops, actuals, w, op, a.value, b.value, c2);
    case Call(callee, args) =>
      var (vs, c1) := GenArgs(args, names, arity, code);
      GenArgsMeans(ops, actuals, names, env, arity, w, args, code);
      RunSnoc(ops, actuals, w, c1, CallF(callee, vs.value));
  }

  lemma {:induction false} GenArgsMeans<D, W>(ops: Ops<D, W>, actuals: seq<D>, names: map<string, Value>, env: map<string, D>,
                                              arity: map<string, nat>, w: W, args: seq<Expr>, code: seq<Instr>)
    requires Binds<D, W>(ops, actuals, names, env) && GenArgs(args, names, arity, code).0 != Nothing
    ensures var (vs, code') := GenArgs(args, names, arity, code);
            var m, m' := RunBlock(ops, actuals, w, code), RunBlock(ops, actuals, w, code');
            && m.regs <= m'.regs && |vs.value| == |args| && (forall i | 0 <= i < |vs.value| :: Placed(vs.value[i], m'))
            && EvalArgs(ops, env, m.world, args) == (m'.world, Operands(ops, actuals, m', vs.value))
    decreases args, 1
  {
    hide RunBlock, Operand;
    if args == [] {
      assert Operands(ops, actuals, RunBlock(ops, actuals, w, code), []) == [];
    } else {
      var k := |args| - 1;
      var (vs, c1) := GenArgs(args[..k], names, arity, code);
      var (v, c2) := Gen(args[k], names, arity, c1);
      GenArgsMeans(ops, actuals, names, env, arity, w, args[..k], code);
      GenMeans(ops, actuals, names, env, arity, w, args[k], c1);
      var m1, m2 := RunBlock(ops, actuals, w, c1), RunBlock(ops, actuals, w, c2);
      forall i | 0 <= i < |vs.value|
        ensures Placed(vs.value[i], m2) && Operand(ops, actuals, m2, vs.value[i]) == Operand(ops, actuals, m1, vs.value[i])
      {
        OperandStays(ops, actuals, m1, m2, vs.value[i]);
      }
      assert Operands(ops, actuals, m2, vs.value + [v.value])
          == Operands(ops, actuals, m1, vs.value) + [Operand(ops, actuals, m2, v.value)];
    }
  }
}
