/**
 The part of an LLVM module that the analyses read: what each value is, who uses it, and the answers
 of MemorySSA, LoopInfo and the call resolver, all as finite given data.
 */
module IR {
  import opened Collections
  import opened Reachability

  type FunctionId = int
  type Block = int

  datatype Opcode = Add | Sub | Mul | Shl | LShr | AShr | OtherOp(code: nat)

  datatype Type = Integer(bits: nat) | NonInteger

  /** What the isa/dyn_cast tests of the analyses distinguish. */
  datatype Kind =
    | Alloca
    | GlobalVariable
    | OtherConstant
    | CodePointer  // a function, or a constant cast of one
    | Gep(base: Value, indices: seq<Value>, folded: bool)  // folded: a constant expression
    | BitCast(operand: Value, folded: bool)
    | Load(pointer: Value)
    | Store(stored: Value, target: Value)
    | Binary(op: Opcode, left: Value, right: Value, ty: Type)
    | Call(callee: FunctionId, args: seq<Value>, called: Value)
    | Argument(parent: FunctionId, number: nat)
    | Branch(within: FunctionId, conditional: bool, successors: seq<Block>)
    | OtherInstruction

  datatype Function = Function(name: string, isDeclaration: bool, isVarArg: bool, formals: seq<Value>)

  datatype Loop = Loop(preheader: Option<Block>, blocks: seq<Block>)

  datatype Program = Program(
    kinds: map<Value, Kind>,
    users: map<Value, seq<Value>>,           // Value::users, one entry per use
    storeLoads: map<Value, seq<Value>>,      // the loads MemorySSA hangs below a store
    loadDefs: map<Value, Value>,             // a load's MustAlias definition; absent when it may alias
    functions: map<FunctionId, Function>,
    instructions: seq<Value>,                // every instruction, in module order
    blocks: map<Block, seq<Value>>,
    loopFor: map<Block, Loop>,               // the innermost loop a block is in
    topLoops: map<FunctionId, seq<Loop>>)
  {
    function KindOf(v: Value): Kind {
      if v in kinds then kinds[v] else OtherInstruction
    }

    predicate IsCall(v: Value) { KindOf(v).Call? }

    /** isa<Constant> */
    predicate IsConstant(v: Value) {
      match KindOf(v)
      case GlobalVariable => true
      case OtherConstant => true
      case CodePointer => true
      case Gep(_, _, folded) => folded
      case BitCast(_, folded) => folded
      case _ => false
    }

    function UsersOf(v: Value): seq<Value> {
      if v in users then users[v] else []
    }

    /** getUsingInstr: the loads that read what the store v wrote. */
    function LoadsOf(v: Value): seq<Value> {
      if v in storeLoads then storeLoads[v] else []
    }

    function FunctionOf(f: FunctionId): Function {
      if f in functions then functions[f] else Function("", true, false, [])
    }

    /** getStore: the defining store of a load, or its pointer operand when the definition is ambiguous. */
    function StoreOf(load: Value): Value
      requires KindOf(load).Load?
    {
      if load in loadDefs then loadDefs[load] else kinds[load].pointer
    }

    /** All operands of a call, the called value last. */
    function Operands(call: Value): seq<Value>
      requires IsCall(call)
    {
      kinds[call].args + [kinds[call].called]
    }

    /** A function whose body is available and takes a fixed number of arguments is followed. */
    predicate Followed(call: Value)
      requires IsCall(call)
    {
      var f := FunctionOf(kinds[call].callee);
      !f.isDeclaration && !f.isVarArg
    }

    /** The formal arguments through which value arg enters the body called by call. */
    ghost function FormalsFor(call: Value, arg: Value): set<Value> {
      if IsCall(call) && Followed(call) then
        var formals := FunctionOf(kinds[call].callee).formals;
        set i | 0 <= i < |Operands(call)| && i < |formals| && Operands(call)[i] == arg :: formals[i]
      else {}
    }

    /** The def-use and store-to-load successors of v that forward tracing follows. */
    ghost predicate FlowsTo(v: Value, w: Value) {
      v in kinds && (w in UsersOf(v) || (KindOf(v).Store? && w in LoadsOf(v)))
    }

    ghost function Flow(): (r: Edges)
      ensures forall a, b :: (a, b) in r <==> FlowsTo(a, b)
    {
      var uses := set v, u | v in kinds && u in UsersOf(v) :: (v, u);
      var loads := set v, u | v in kinds && u in LoadsOf(v) && KindOf(v).Store? :: (v, u);
      uses + loads
    }

    /** Nothing leads out of the module, calls resolve with matching arities, and data never flows
        into a function. */
    ghost predicate WellFormed() {
      && (forall v, u {:trigger u in UsersOf(v)} :: v in kinds && u in UsersOf(v) ==>
            u in kinds && !KindOf(u).Argument? && (!KindOf(v).CodePointer? ==> !KindOf(u).CodePointer?))
      && (forall v, l {:trigger l in LoadsOf(v)} :: v in kinds && l in LoadsOf(v) ==> l in kinds && KindOf(l).Load?)
      && (forall v {:trigger WellFormedValue(v)} :: v in kinds ==> WellFormedValue(v))
      && (forall f, a {:trigger a in functions[f].formals} :: f in functions && a in functions[f].formals ==>
            a in kinds && KindOf(a).Argument?)
      && (forall c {:trigger c in instructions} :: c in instructions ==> c in kinds)
      && (forall b, i {:trigger i in blocks[b]} :: b in blocks && i in blocks[b] ==> i in kinds)
    }

    ghost predicate WellFormedValue(v: Value)
      requires v in kinds
    {
      match kinds[v]
      case Gep(base, indices, _) => base in kinds && forall i :: i in indices ==> i in kinds
      case BitCast(operand, _) => operand in kinds
      case Load(pointer) => pointer in kinds && StoreOf(v) in kinds
      case Store(stored, target) => stored in kinds && target in kinds
      case Binary(_, left, right, _) => left in kinds && right in kinds
      case Call(callee, args, called) =>
        && (forall a :: a in args ==> a in kinds)
        && KindOf(called).CodePointer?
        && callee in functions
        && |functions[callee].formals| <= |args|
        && (Followed(v) ==> |functions[callee].formals| == |args|)
      case Argument(f, n) => f in functions && n < |functions[f].formals|
      case _ => true
    }
  }
}
