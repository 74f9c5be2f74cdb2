/** Definitions that meet an earlier declaration or definition of their name. */
module KalDeclared {
  import opened KalGrammar
  import opened KalCodegen
  import opened KalModule

  // ----- the code under two symbol tables -----

  /** Both tables give every variable of the expression the same operand. */
  predicate Agree(e: Expr, p: map<string, Value>, q: map<string, Value>) {
    match e
    case Num(_) => true
    case Variable(x) => x in p && x in q && p[x] == q[x]
    case Binary(_, l, r) => Agree(l, p, q) && Agree(r, p, q)
    case Call(_, args) => forall i | 0 <= i < |args| :: Agree(args[i], p, q)
  }

  /** What code generation adds to a block. */
  function Added(code: seq<Instr>, code': seq<Instr>): seq<Instr>
    requires code <= code'
  {
    code'[|code|..]
  }

  lemma AddedTwice(code: seq<Instr>, c1: seq<Instr>, c2: seq<Instr>)
    requires code <= c1 <= c2
    ensures code <= c2 && Added(code, c2) == Added(code, c1) + Added(c1, c2)
  {}

  /** Concatenations of equally long parts are equal part by part. */
  lemma SplitEqual<T>(a: seq<T>, b: seq<T>, a': seq<T>, b': seq<T>)
    requires |a| == |a'|
    ensures a + b == a' + b' <==> a == a' && b == b'
  {
    if a + b == a' + b' {
      assert a == (a + b)[..|a|] && a' == (a' + b')[..|a'|];
      assert b == (a + b)[|a|..] && b' == (a' + b')[|a'|..];
    }
  }

  /** After code of one length, an expression that compiles under both tables compiles to the same operand and
      instructions exactly when they agree on its variables. */
  lemma {:induction false} SameGen(e: Expr, p: map<string, Value>, q: map<string, Value>, arity: map<string, nat>,
                                   c: seq<Instr>, d: seq<Instr>)
    requires |c| == |d| && Gen(e, p, arity, c).0 != Nothing && Gen(e, q, arity, d).0 != Nothing
    ensures var (v, c') := Gen(e, p, arity, c); var (u, d') := Gen(e, q, arity, d);
            && |c'| == |d'|
            && (v == u && Added(c, c') == Added(d, d') <==> Agree(e, p, q))
    decreases e, 0
  {
    match e
    case Num(_) =>
    case Variable(_) =>
    case Binary(op, l, r) =>
      var (a, c1) := Gen(l, p, arity, c);
      var (b, c2) := Gen(r, p, arity, c1);
      var (a', d1) := Gen(l, q, arity, d);
      var (b', d2) := Gen(r, q, arity, d1);
      SameGen(l, p, q, arity, c, d);
      SameGen(r, p, q, arity, c1, d1);
      SameCombine(op, a.value, b.value, c2, a'.value, b'.value, d2);
      hide Added, Combine, Agree;
      var c3, d3 := Gen(e, p, arity, c).1, Gen(e, q, arity, d).1;
      assert Agree(e, p, q) == (Agree(l, p, q) && Agree(r, p, q)) by { AgreeBinary(op, l, r, p, q); }
      AddedLengths(c, c1, c2, d, d1, d2);
      AddedTwice(c, c1, c2);
      AddedTwice(d, d1, d2);
      AddedTwice(c, c2, c3);
      AddedTwice(d, d2, d3);
      SplitEqual(Added(c, c1), Added(c1, c2), Added(d, d1), Added(d1, d2));
      SplitEqual(Added(c, c2), Added(c2, c3), Added(d, d2), Added(d2, d3));
    case Call(callee, args) =>
      var (vs, c1) := GenArgs(args, p, arity, c);
      var (us, d1) := GenArgs(args, q, arity, d);
      SameGenArgs(args, p, q, arity, c, d);
      var i, j := CallF(callee, vs.value), CallF(callee, us.value);
      assert Added(c, c1 + [i]) == Added(c, c1) + [i] && Added(d, d1 + [j]) == Added(d, d1) + [j];
      SplitEqual(Added(c, c1), [i], Added(d, d1), [j]);
      assert [i] == [j] <==> i == j by { assert [i][0] == i && [j][0] == j; }
  }

  lemma AgreeBinary(op: char, l: Expr, r: Expr, p: map<string, Value>, q: map<string, Value>)
    ensures Agree(Binary(op, l, r), p, q) == (Agree(l, p, q) && Agree(r, p, q))
  {}

  lemma AddedLengths(c: seq<Instr>, c1: seq<Instr>, c2: seq<Instr>, d: seq<Instr>, d1: seq<Instr>, d2: seq<Instr>)
    requires c <= c1 <= c2 && d <= d1 <= d2 && |c| == |d| && |c1| == |d1| && |c2| == |d2|
    ensures c <= c2 && d <= d2
    ensures |Added(c, c1)| == |Added(d, d1)| && |Added(c1, c2)| == |Added(d1, d2)| && |Added(c, c2)| == |Added(d, d2)|
  {}

  lemma SameCombine(op: char, a: Value, b: Value, c: seq<Instr>, a': Value, b': Value, d: seq<Instr>)
    requires |c| == |d| && op in {'+', '-', '*', '<'}
    ensures var (v, c') := Combine(op, a, b, c); var (u, d') := Combine(op, a', b', d);
            |c'| == |d'| && v == u && (Added(c, c') == Added(d, d') <==> a == a' && b == b')
  {
    var (v, c') := Combine(op, a, b, c);
    var (u, d') := Combine(op, a', b', d);
    assert Added(c, c')[0] == c'[|c|] && Added(d, d')[0] == d'[|d|];
  }

  lemma {:induction false} SameGenArgs(args: seq<Expr>, p: map<string, Value>, q: map<string, Value>,
                                       arity: map<string, nat>, c: seq<Instr>, d: seq<Instr>)
    requires |c| == |d| && GenArgs(args, p, arity, c).0 != Nothing && GenArgs(args, q, arity, d).0 != Nothing
    ensures var (vs, c') := GenArgs(args, p, arity, c); var (us, d') := GenArgs(args, q, arity, d);
            && |c'| == |d'| && |vs.value| == |us.value|
            && (vs == us && Added(c, c') == Added(d, d') <==> AgreeAll(args, p, q))
    decreases args, 1
  {
    if args != [] {
      var k := |args| - 1;
      var (vs, c1) := GenArgs(args[..k], p, arity, c);
      var (us, d1) := GenArgs(args[..k], q, arity, d);
      var (v, c2) := Gen(args[k], p, arity, c1);
      var (u, d2) := Gen(args[k], q, arity, d1);
      SameGenArgs(args[..k], p, q, arity, c, d);
      SameGen(args[k], p, q, arity, c1, d1);
      AgreeLast(args, p, q);
      hide Added, Agree, AgreeAll, Gen;
      AddedLengths(c, c1, c2, d, d1, d2);
      AddedTwice(c, c1, c2);
      AddedTwice(d, d1, d2);
      SplitEqual(Added(c, c1), Added(c1, c2), Added(d, d1), Added(d1, d2));
      SplitEqual(vs.value, [v.value], us.value, [u.value]);
      assert [v.value] == [u.value] <==> v.value == u.value by { assert [v.value][0] == v.value && [u.value][0] == u.value; }
    }
  }

  predicate AgreeAll(args: seq<Expr>, p: map<string, Value>, q: map<string, Value>) {
    forall i | 0 <= i < |args| :: Agree(args[i], p, q)
  }

  lemma AgreeLast(args: seq<Expr>, p: map<string, Value>, q: map<string, Value>)
    requires args != []
    ensures var k := |args| - 1; AgreeAll(args, p, q) == (AgreeAll(args[..k], p, q) && Agree(args[k], p, q))
  {
    var k := |args| - 1;
    assert forall i | 0 <= i < k :: args[..k][i] == args[i];
  }

  // ----- a definition after a declaration -----

  /** Two parameter lists put every variable of the body in the same place. */
  predicate SamePlaces(body: Expr, ps: seq<string>, qs: seq<string>) { Agree(body, ArgNames(ps), ArgNames(qs)) }

  /** The block the body compiles to under its own parameter names. */
  function Own(nm: Namer, m: map<string, FunctionIR>, proto: Prototype, body: Expr): Block
    requires Resolves(body, ParamSet(nm(proto.params)), Arities(m))
  {
    GenSucceeds(body, ArgNames(nm(proto.params)), Arities(m), []);
    assert ArgNames(nm(proto.params)).Keys == ParamSet(nm(proto.params));
    var (v, code) := Gen(body, ArgNames(nm(proto.params)), Arities(m), []);
    Block(code, v.value)
  }

  /** After a declaration a definition is compiled as its own text says exactly when declaration and definition put
      every variable of the body in the same place. */
  lemma DeclaredCode(nm: Namer, m: map<string, FunctionIR>, proto: Prototype, body: Expr)
    requires proto.name in m && CanDefine(nm, m, proto, body) && Resolves(body, ParamSet(nm(proto.params)), Arities(m))
    ensures Compiled(nm, m, proto, body) == Own(nm, m, proto, body) <==> SamePlaces(body, m[proto.name].params, nm(proto.params))
  {
    var ps := m[proto.name].params;
    assert Declared(nm, m, proto) == m;
    GenSucceeds(body, ArgNames(ps), Arities(m), []);
    GenSucceeds(body, ArgNames(nm(proto.params)), Arities(m), []);
    assert ArgNames(ps).Keys == ParamSet(ps) && ArgNames(nm(proto.params)).Keys == ParamSet(nm(proto.params));
    SameGen(body, ArgNames(ps), ArgNames(nm(proto.params)), Arities(m), [], []);
  }

  /** Then it computes what its own text says. */
  lemma DeclaredMeans<D, W>(ops: Ops<D, W>, nm: Namer, m: map<string, FunctionIR>, proto: Prototype, body: Expr, actuals: seq<D>, w: W)
    requires proto.name in m && m[proto.name].blocks == [] && |actuals| == |m[proto.name].params| == |nm(proto.params)|
    requires CanDefine(nm, m, proto, body) && Resolves(body, ParamSet(nm(proto.params)), Arities(m))
    requires SamePlaces(body, m[proto.name].params, nm(proto.params))
    ensures var f := Defined(nm, m, proto, body)[proto.name];
            f.blocks != [] && Invoke(ops, f, actuals, w) == Eval(ops, Environment(nm(proto.params), actuals), w, body)
  {
    DeclaredCode(nm, m, proto, body);
    OwnMeans(ops, nm, m, proto, body, actuals, w);
    hide Compiled, Own, Eval, RunBlock;
  }

  lemma OwnMeans<D, W>(ops: Ops<D, W>, nm: Namer, m: map<string, FunctionIR>, proto: Prototype, body: Expr, actuals: seq<D>, w: W)
    requires Resolves(body, ParamSet(nm(proto.params)), Arities(m)) && |actuals| == |nm(proto.params)|
    ensures Invoke(ops, FunctionIR(nm(proto.params), [Own(nm, m, proto, body)]), actuals, w)
         == Eval(ops, Environment(nm(proto.params), actuals), w, body)
  {
    var names := ArgNames(nm(proto.params));
    GenSucceeds(body, names, Arities(m), []);
    assert names.Keys == ParamSet(nm(proto.params));
    GenMeans(ops, actuals, names, Environment(nm(proto.params), actuals), Arities(m), w, body, []);
  }

  /** Integers for doubles, and calls that do nothing. */
  function IntOps(): Ops<int, int> {
    Ops((text: string) => 0, (x: int, y: int) => x + y, (x: int, y: int) => x - y, (x: int, y: int) => x * y,
        (x: int, y: int) => x < y, (b: bool) => if b then 1 else 0,
        (w: int, callee: string, args: seq<int>) => (w, 0))
  }

  /** def f(a b) with this body, after extern g(x). */
  function Compile(nm: Namer, body: Expr): map<string, FunctionIR> {
    Defined(nm, map["g" := FunctionIR(["x"], [])], Prototype("f", ["a", "b"]), body)
  }

  /** The compiled f, run on two numbers, gives this. */
  ghost predicate Runs<W>(ops: Ops<int, W>, nm: Namer, body: Expr, a: int, b: int, w: W, w': W, result: int) {
    var m := Compile(nm, body);
    "f" in m && m["f"].blocks != [] && Invoke(ops, m["f"], [a, b], w) == (w', result)
  }

  lemma RunsAsEvaluated<W>(ops: Ops<int, W>, nm: Namer, body: Expr, a: int, b: int, w: W)
    requires Names(nm) && Resolves(body, {"a", "b"}, map["g" := 1, "f" := 2])
    ensures var (w', r) := Eval(ops, map["a" := a, "b" := b], w, body); Runs(ops, nm, body, a, b, w, w', r)
  {
    var m, proto := map["g" := FunctionIR(["x"], [])], Prototype("f", ["a", "b"]);
    assert Distinct(["a", "b"]) && nm(["a", "b"]) == ["a", "b"];
    assert Declared(nm, m, proto)["f"] == FunctionIR(["a", "b"], []);
    assert Arities(Declared(nm, m, proto)) == map["g" := 1, "f" := 2];
    assert ParamSet(["a", "b"]) == {"a", "b"};
    LastOfTwo("a", "b");
    assert Environment(["a", "b"], [a, b]) == map["a" := a, "b" := b];
    DefinitionMeans(ops, nm, m, proto, body, [a, b], w);
    hide Eval, Environment, Resolves, Compiled, ParamSet, Arities, RunBlock, Distinct;
  }

  function OfTwo(op: char): Expr { Binary(op, Variable("a"), Variable("b")) }

  /** def f(a b) a op b computes the sum, the difference, the product, and for less 1 or 0. */
  lemma OperatorsCompute(nm: Namer, a: int, b: int)
    requires Names(nm)
    ensures Runs(IntOps(), nm, OfTwo('+'), a, b, 0, 0, a + b) && Runs(IntOps(), nm, OfTwo('-'), a, b, 0, 0, a - b)
    ensures Runs(IntOps(), nm, OfTwo('*'), a, b, 0, 0, a * b)
    ensures Runs(IntOps(), nm, OfTwo('<'), a, b, 0, 0, if a < b then 1 else 0)
  {
    hide Runs;
    RunsAsEvaluated(IntOps(), nm, OfTwo('+'), a, b, 0);
    RunsAsEvaluated(IntOps(), nm, OfTwo('-'), a, b, 0);
    RunsAsEvaluated(IntOps(), nm, OfTwo('*'), a, b, 0);
    RunsAsEvaluated(IntOps(), nm, OfTwo('<'), a, b, 0);
  }

  /** Calls are recorded with their arguments, and give back the first. */
  function TraceOps(): Ops<int, seq<(string, seq<int>)>> {
    Ops((text: string) => 0, (x: int, y: int) => x + y, (x: int, y: int) => x - y, (x: int, y: int) => x * y,
        (x: int, y: int) => x < y, (b: bool) => if b then 1 else 0,
        (w: seq<(string, seq<int>)>, callee: string, args: seq<int>) => (w + [(callee, args)], if args == [] then 0 else args[0]))
  }

  /** def f(a b) g(a) - g(b) calls g on a, then g on b, and subtracts; def f(a b) f(b, a) passes its arguments swapped. */
  lemma CallsInOrder(nm: Namer, a: int, b: int)
    requires Names(nm)
    ensures var body := Binary('-', Call("g", [Variable("a")]), Call("g", [Variable("b")]));
            Runs(TraceOps(), nm, body, a, b, [], [("g", [a]), ("g", [b])], a - b)
    ensures Runs(TraceOps(), nm, Call("f", [Variable("b"), Variable("a")]), a, b, [], [("f", [b, a])], b)
  {
    hide Runs, TraceOps;
    var env, va, vb := map["a" := a, "b" := b], Variable("a"), Variable("b");
    var ga, gb := Call("g", [va]), Call("g", [vb]);
    assert Eval(TraceOps(), env, [], va) == ([], a) && Eval(TraceOps(), env, [], vb) == ([], b);
    assert Eval(TraceOps(), env, [("g", [a])], vb) == ([("g", [a])], b);
    assert Resolves(ga, {"a", "b"}, map["g" := 1, "f" := 2]) && Resolves(gb, {"a", "b"}, map["g" := 1, "f" := 2]);
    RunsAsEvaluated(TraceOps(), nm, Binary('-', ga, gb), a, b, []);
    RunsAsEvaluated(TraceOps(), nm, Call("f", [vb, va]), a, b, []);
    OneArgument(TraceOps(), env, [], va);
    OneArgument(TraceOps(), env, [], vb);
    OneArgument(TraceOps(), env, [("g", [a])], vb);
    TwoArguments(TraceOps(), env, [], vb, va);
    Traced([], "g", [a]);
    Traced([("g", [a])], "g", [b]);
    Traced([], "f", [b, a]);
    SubtractsTraced(a, b);
    var nothing: seq<(string, seq<int>)> := [];
    assert nothing + [("g", [a])] == [("g", [a])] && nothing + [("f", [b, a])] == [("f", [b, a])];
    assert [("g", [a])] + [("g", [b])] == [("g", [a]), ("g", [b])];
    assert Eval(TraceOps(), env, [], ga) == ([("g", [a])], a);
    assert Eval(TraceOps(), env, [("g", [a])], gb) == ([("g", [a]), ("g", [b])], b);
    assert Eval(TraceOps(), env, [], Call("f", [vb, va])) == ([("f", [b, a])], b);
  }

  lemma Traced(w: seq<(string, seq<int>)>, callee: string, args: seq<int>)
    requires args != []
    ensures TraceOps().call(w, callee, args) == (w + [(callee, args)], args[0])
  {}

  lemma SubtractsTraced(a: int, b: int)
    ensures TraceOps().sub(a, b) == a - b
  {}

  lemma OneArgument<D, W>(ops: Ops<D, W>, env: map<string, D>, w: W, e: Expr)
    ensures var (w1, d) := Eval(ops, env, w, e); EvalArgs(ops, env, w, [e]) == (w1, [d])
  {
    assert [e][..0] == [] && EvalArgs(ops, env, w, []) == (w, []);
    var d := Eval(ops, env, w, e).1;
    assert [] + [d] == [d];
  }

  lemma TwoArguments<D, W>(ops: Ops<D, W>, env: map<string, D>, w: W, e: Expr, f: Expr)
    ensures var (w1, d) := Eval(ops, env, w, e); var (w2, c) := Eval(ops, env, w1, f);
            EvalArgs(ops, env, w, [e, f]) == (w2, [d, c])
  {
    assert [e, f][..1] == [e];
    OneArgument(ops, env, w, e);
    var d, c := Eval(ops, env, w, e).1, Eval(ops, env, Eval(ops, env, w, e).0, f).1;
    assert [d] + [c] == [d, c];
  }

  lemma SwappedEval()
    ensures Eval(IntOps(), Environment(["a", "b"], [5, 3]), 0, OfTwo('-')) == (0, 2)
    ensures Eval(IntOps(), Environment(["b", "a"], [5, 3]), 0, OfTwo('-')) == (0, -2)
  {
    LastOfTwo("a", "b");
    LastOfTwo("b", "a");
    var declared, own := Environment(["a", "b"], [5, 3]), Environment(["b", "a"], [5, 3]);
    assert declared["a"] == 5 && declared["b"] == 3 && own["a"] == 3 && own["b"] == 5;
  }

  /** extern f(a b) and then def f(b a) a - b: the places differ, and f(5 3) gives 5 - 3, not 3 - 5. */
  lemma SwappedDeclaration(nm: Namer)
    requires Names(nm)
    ensures var m, proto := map["f" := FunctionIR(["a", "b"], [])], Prototype("f", ["b", "a"]);
            && CanDefine(nm, m, proto, OfTwo('-')) && Resolves(OfTwo('-'), ParamSet(nm(proto.params)), Arities(m))
            && !SamePlaces(OfTwo('-'), m["f"].params, nm(proto.params))
            && Defined(nm, m, proto, OfTwo('-'))["f"].blocks != []
            && Invoke(IntOps(), Defined(nm, m, proto, OfTwo('-'))["f"], [5, 3], 0) == (0, 2)
    ensures Eval(IntOps(), Environment(["b", "a"], [5, 3]), 0, OfTwo('-')) == (0, -2)
  {
    var m, proto := map["f" := FunctionIR(["a", "b"], [])], Prototype("f", ["b", "a"]);
    LastOfTwo("a", "b");
    LastOfTwo("b", "a");
    assert nm(["b", "a"]) == ["b", "a"];
    SwappedEval();
    hide Eval, Environment, IndexOf, RunBlock, Compiled;
    DefinitionMeans(IntOps(), nm, m, proto, OfTwo('-'), [5, 3], 0);
  }

  lemma LastOfTwo(x: string, y: string)
    requires x != y
    ensures [x, y][0] == x && [x, y][1] == y && IndexOf([x, y], x) == 0 && IndexOf([x, y], y) == 1
  {
    assert [x, y][..1] == [x];
  }

  // ----- a definition after a definition -----

  function Program(nm: Namer, m: map<string, FunctionIR>, items: seq<Item>): map<string, FunctionIR>
    decreases |items|
  {
    if items == [] then m else Program(nm, After(nm, m, items[0]), items[1..])
  }

  /** Some item defines the name with a body that does not compile, which erases the function. */
  predicate Erased(nm: Namer, m: map<string, FunctionIR>, items: seq<Item>, name: string)
    decreases |items|
  {
    items != []
    && ((items[0].Definition? && items[0].proto.name == name && !CanDefine(nm, m, items[0].proto, items[0].body))
        || Erased(nm, After(nm, m, items[0]), items[1..], name))
  }

  /** Whatever follows, a function keeps doing what its first body says, until a definition of its name fails. */
  lemma {:induction false} FirstBodyStays<D, W>(ops: Ops<D, W>, nm: Namer, m: map<string, FunctionIR>, items: seq<Item>,
                                                name: string, actuals: seq<D>, w: W)
    requires name in m && m[name].blocks != [] && !Erased(nm, m, items, name)
    ensures var m' := Program(nm, m, items);
            && name in m' && m'[name].params == m[name].params && m'[name].blocks != []
            && Invoke(ops, m'[name], actuals, w) == Invoke(ops, m[name], actuals, w)
    decreases |items|
  {
    if items != [] {
      ItemKeepsFirst(nm, m, items[0], name);
      FirstBodyStays(ops, nm, After(nm, m, items[0]), items[1..], name, actuals, w);
    }
  }

  lemma ItemKeepsFirst(nm: Namer, m: map<string, FunctionIR>, item: Item, name: string)
    requires name in m && m[name].blocks != []
    requires item.Definition? && item.proto.name == name ==> CanDefine(nm, m, item.proto, item.body)
    ensures var m' := After(nm, m, item);
            name in m' && m'[name].params == m[name].params && m'[name].blocks != [] && m'[name].blocks[0] == m[name].blocks[0]
  {
    hide Compiled, CanDefine;
  }

  /** A definition that fails makes its name unknown, even if it was declared or defined before: no later body that
      calls it compiles. */
  lemma FailedDefinitionForgets(nm: Namer, m: map<string, FunctionIR>, proto: Prototype, body: Expr, args: seq<Expr>, caller: Prototype)
    requires !CanDefine(nm, m, proto, body) && caller.name != proto.name
    ensures !CanDefine(nm, Defined(nm, m, proto, body), caller, Call(proto.name, args))
  {}
}
