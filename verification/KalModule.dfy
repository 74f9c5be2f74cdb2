/** The code generator as it runs: the builder, the symbol table, and the module of functions. */
module KalModule {
  import opened KalGrammar
  import opened KalCodegen

  datatype Block = Block(code: seq<Instr>, ret: Value)

  /** A function: its parameter names and its blocks; execution starts at the first. */
  datatype FunctionIR = FunctionIR(params: seq<string>, blocks: seq<Block>)

  function Arities(m: map<string, FunctionIR>): map<string, nat> {
    map f | f in m :: |m[f].params|
  }

  /** The bindings that have a value; looking a name up may add null entries. */
  function Bound(named: map<string, Maybe<Value>>): map<string, Value> {
    map x | x in named && named[x] != Nothing :: named[x].value
  }

  function ArgNames(params: seq<string>): map<string, Value> {
    map x | x in params :: Arg(IndexOf(params, x))
  }

  /** Last place of a name in a list. */
  function IndexOf(params: seq<string>, x: string): (i: nat)
    requires x in params
    ensures i < |params| && params[i] == x
  {
    if params[|params| - 1] == x then |params| - 1 else IndexOf(params[..|params| - 1], x)
  }

  predicate Distinct(params: seq<string>) {
    forall i, j | 0 <= i < j < |params| :: params[i] != params[j]
  }

  /** The names LLVM gives the arguments of a function that asks for these. */
  type Namer = seq<string> -> seq<string>

  /** No two arguments share a name; a name asked for twice is changed, and only then any is. */
  ghost predicate Names(nm: Namer) {
    forall ps: seq<string> :: |nm(ps)| == |ps| && Distinct(nm(ps)) && (Distinct(ps) ==> nm(ps) == ps)
  }

  const ANONYMOUS := "__anon_expr"

  function ParamSet(params: seq<string>): set<string> { set x | x in params }

  // ----- what an item does to the module -----

  function Declared(nm: Namer, m: map<string, FunctionIR>, proto: Prototype): (r: map<string, FunctionIR>)
    ensures proto.name in r
  {
    if proto.name in m then m else m[proto.name := FunctionIR(nm(proto.params), [])]
  }

  /** A body can be compiled when it resolves against the parameters of the first declaration. */
  predicate CanDefine(nm: Namer, m: map<string, FunctionIR>, proto: Prototype, body: Expr) {
    var d := Declared(nm, m, proto);
    Resolves(body, ParamSet(d[proto.name].params), Arities(d))
  }

  /** The block a body compiles to. */
  function Compiled(nm: Namer, m: map<string, FunctionIR>, proto: Prototype, body: Expr): Block
    requires CanDefine(nm, m, proto, body)
  {
    var d := Declared(nm, m, proto);
    var names := ArgNames(d[proto.name].params);
    GenSucceeds(body, names, Arities(d), []);
    assert names.Keys == ParamSet(d[proto.name].params);
    var (v, code) := Gen(body, names, Arities(d), []);
    Block(code, v.value)
  }

  /** A definition appends a block to the function of that name, or, if the body fails, erases the function. */
  function Defined(nm: Namer, m: map<string, FunctionIR>, proto: Prototype, body: Expr): map<string, FunctionIR> {
    var d := Declared(nm, m, proto);
    if CanDefine(nm, m, proto, body) then
      d[proto.name := d[proto.name].(blocks := d[proto.name].blocks + [Compiled(nm, m, proto, body)])]
    else d - {proto.name}
  }

  function After(nm: Namer, m: map<string, FunctionIR>, item: Item): map<string, FunctionIR> {
    match item
    case Definition(proto, body) => Defined(nm, m, proto, body)
    case External(proto) => Declared(nm, m, proto)
    case TopLevel(_) => m
  }

  lemma BoundArgNames(params: seq<string>, named: map<string, Maybe<Value>>)
    requires named == map x | x in params :: Just(Arg(IndexOf(params, x)))
    ensures Bound(named) == ArgNames(params) && ArgNames(params).Keys == ParamSet(params)
  {}

  // ----- calling a compiled function -----

  /** The result of running a function on some arguments: its first block decides. */
  function Invoke<D, W>(ops: Ops<D, W>, f: FunctionIR, actuals: seq<D>, w: W): (W, D)
    requires f.blocks != []
  {
    var m := RunBlock(ops, actuals, w, f.blocks[0].code);
    (m.world, Operand(ops, actuals, m, f.blocks[0].ret))
  }

  /** Parameters bound to arguments. */
  function Environment<D>(params: seq<string>, actuals: seq<D>): map<string, D>
    requires |params| == |actuals|
  {
    map x | x in params :: actuals[IndexOf(params, x)]
  }

  /** A function that compiles runs as its body evaluates, with the parameters bound to the arguments. */
  lemma DefinitionMeans<D, W>(ops: Ops<D, W>, nm: Namer, m: map<string, FunctionIR>, proto: Prototype, body: Expr, actuals: seq<D>, w: W)
    requires proto.name !in m || m[proto.name].blocks == []
    requires CanDefine(nm, m, proto, body) && |actuals| == |Declared(nm, m, proto)[proto.name].params|
    ensures var f := Defined(nm, m, proto, body)[proto.name];
            f.blocks != [] && Invoke(ops, f, actuals, w) == Eval(ops, Environment(f.params, actuals), w, body)
  {
    var d := Declared(nm, m, proto);
    var params := d[proto.name].params;
    var names := ArgNames(params);
    GenSucceeds(body, names, Arities(d), []);
    assert names.Keys == ParamSet(params);
    GenMeans(ops, actuals, names, Environment(params, actuals), Arities(d), w, body, []);
  }

  class CodeGenerator {
    var builder: seq<Instr>
    var namedValues: map<string, Maybe<Value>>
    var functions: map<string, FunctionIR>

    const argNames: Namer

    constructor (nm: Namer)
      requires Names(nm)
      ensures builder == [] && namedValues == map[] && functions == map[] && argNames == nm
    {
      builder, namedValues, functions, argNames := [], map[], map[], nm;
    }

    /** The codegen method of every kind of expression. */
    method Codegen(e: Expr) returns (r: Maybe<Value>)
      modifies this`builder, this`namedValues
      ensures Bound(namedValues) == Bound(old(namedValues))
      ensures (r, builder) == Gen(e, Bound(old(namedValues)), Arities(functions), old(builder))
      decreases e, 0
    {
      match e
      case Num(text) => return Just(Const(text));
      case Variable(name) =>
        if name !in namedValues { namedValues := namedValues[name := Nothing]; }
        assert Bound(namedValues) == Bound(old(namedValues));
        return namedValues[name];
      case Binary(op, lhs, rhs) =>
        var l := Codegen(lhs);
        var r' := Codegen(rhs);
        if l == Nothing || r' == Nothing { return Nothing; }
        r := EmitOperator(op, l.value, r'.value);
      case Call(callee, args) =>
        if callee !in functions { return Nothing; }
        if |functions[callee].params| != |args| { return Nothing; }
        var argsV := CodegenArgs(args);
        if argsV == Nothing { return Nothing; }
        builder := builder + [CallF(callee, argsV.value)];
        return Just(Reg(|builder| - 1));
    }

    /** The switch over the operator. */
    method EmitOperator(op: char, l: Value, r: Value) returns (v: Maybe<Value>)
      modifies this`builder
      ensures (v, builder) == Combine(op, l, r, old(builder))
    {
      match op {
        case '+' => builder := builder + [FAdd(l, r)];
        case '-' => builder := builder + [FSub(l, r)];
        case '*' => builder := builder + [FMul(l, r)];
        case '<' =>
          ghost var before := builder;
          builder := builder + [FCmpULT(l, r)];
          builder := builder + [UIToFP(Reg(|builder| - 1))];
          assert builder == before + [FCmpULT(l, r), UIToFP(Reg(|before|))];
        case _ => return Nothing;
      }
      return Just(Reg(|builder| - 1));
    }

    /** The loop over the arguments of a call. */
    method CodegenArgs(args: seq<Expr>) returns (argsV: Maybe<seq<Value>>)
      modifies this`builder, this`namedValues
      ensures Bound(namedValues) == Bound(old(namedValues))
      ensures (argsV, builder) == GenArgs(args, Bound(old(namedValues)), Arities(functions), old(builder))
      decreases args, 1
    {
      hide Bound, Arities, Gen;
      var vs := [];
      var i := 0;
      assert args[..0] == [];
      while i != |args|
        invariant 0 <= i <= |args|
        invariant Bound(namedValues) == Bound(old(namedValues))
        invariant (Just(vs), builder) == GenArgs(args[..i], Bound(old(namedValues)), Arities(functions), old(builder))
        decreases |args| - i
      {
        assert args[..i + 1][..i] == args[..i];
        var v := Codegen(args[i]);
        if v == Nothing {
          GenArgsFails(args, i + 1, Bound(old(namedValues)), Arities(functions), old(builder));
          return Nothing;
        }
        vs := vs + [v.value];
        i := i + 1;
      }
      assert args[..i] == args;
      return Just(vs);
    }

    /** PrototypeAST::codegen: the name is declared if it is new; a second declaration leaves the first alone. */
    method CodegenPrototype(proto: Prototype)
      modifies this`functions
      ensures functions == Declared(argNames, old(functions), proto)
    {
      if proto.name !in functions {
        functions := functions[proto.name := FunctionIR(argNames(proto.params), [])];
      }
    }

    /** FunctionAST::codegen. */
    method CodegenFunction(proto: Prototype, body: Expr) returns (ok: bool)
      modifies this
      ensures functions == Defined(argNames, old(functions), proto, body)
      ensures ok == CanDefine(argNames, old(functions), proto, body)
    {
      hide Gen, Resolves, Bound, ArgNames, Arities, Eval;
      CodegenPrototype(proto);
      var f := functions[proto.name];
      builder := [];
      namedValues := map x | x in f.params :: Just(Arg(IndexOf(f.params, x)));
      BoundArgNames(f.params, namedValues);
      GenSucceeds(body, ArgNames(f.params), Arities(functions), []);
      var r := Codegen(body);
      ok := r != Nothing;
      if ok {
        functions := functions[proto.name := f.(blocks := f.blocks + [Block(builder, r.value)])];
      } else {
        functions := functions - {proto.name};
      }
    }

    /** What the Handle functions do with an item they read; an anonymous expression is erased again. */
    method CodegenItem(item: Item) returns (ok: bool)
      requires ANONYMOUS !in functions
      modifies this
      ensures functions == After(argNames, old(functions), item)
    {
      match item
      case Definition(proto, body) =>
        ok := CodegenFunction(proto, body);
      case External(proto) =>
        CodegenPrototype(proto);
        ok := true;
      case TopLevel(body) =>
        ok := CodegenFunction(Prototype(ANONYMOUS, []), body);
        if ok { functions := functions - {ANONYMOUS}; }
    }
  }

  /** Once an argument fails the loop has its final state. */
  lemma {:induction false} GenArgsFails(args: seq<Expr>, i: nat, names: map<string, Value>, arity: map<string, nat>, code: seq<Instr>)
    requires i <= |args| && GenArgs(args[..i], names, arity, code).0 == Nothing
    ensures GenArgs(args, names, arity, code) == GenArgs(args[..i], names, arity, code)
    decreases |args|
  {
    if i == |args| {
      assert args[..i] == args;
    } else {
      assert args[..|args| - 1][..i] == args[..i];
      GenArgsFails(args[..|args| - 1], i, names, arity, code);
    }
  }
}
