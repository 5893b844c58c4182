/**
  The constant-folding hook `bit_optimize`, called for every gate the
  circuit builder is about to add. It may hand back a constant, one of the
  operands, or a NOT gate over an operand instead; `None` keeps the gate.
 */
module Optimize {
  import opened Wrappers
  import opened Circuit

  /** A wire: its current value, whether it is a `constant`, and the index
      of the gate that drives it. */
  datatype Wire = Wire(value: bool, isConstant: bool, gate: nat)

  /** What the hook returns: `None` (keep the gate), `constant(b)`, an
      operand, or `bit(value, gate(not_, [input]))`. Unpacking anything but
      two operands for a binary operation is an error. */
  datatype Rewrite = Keep | Constant(b: bool) | Operand(w: Wire) | Negation(value: bool, input: nat) | ArityError

  /** `bit_optimize(o, v, *args)`, branch for branch. */
  function BitOptimize(o: Op, v: bool, args: seq<Wire>): (r: Rewrite)
    ensures r.ArityError? <==> (if o == Not then |args| == 0 else |args| != 2)
    ensures r.Operand? ==> r.w in args
    ensures r.Negation? ==> exists i :: 0 <= i < |args| && r.input == args[i].gate && r.value == !args[i].value
  {
    if o == Not then
      if |args| == 0 then ArityError
      else if args[0].isConstant then Constant(v) else Keep
    else if |args| != 2 then ArityError
    else
      var x, y := args[0], args[1];
      if x.isConstant && y.isConstant then Constant(v)
      else if o == And then
        if x.isConstant then (if x.value then Operand(y) else Constant(false))
        else if y.isConstant then (if y.value then Operand(x) else Constant(false))
        else Keep
      else if o == Or then
        if x.isConstant then (if x.value then Constant(true) else Operand(y))
        else if y.isConstant then (if y.value then Constant(true) else Operand(x))
        else Keep
      else if o == Xor then
        if x.gate == y.gate then Constant(false)
        else if x.isConstant then (if !x.value then Operand(y) else Negation(!y.value, y.gate))
        else if y.isConstant then (if !y.value then Operand(x) else Negation(!x.value, x.gate))
        else Keep
      else Keep
  }

  /** `v` is what gate `o` computes from `args`; operations the hook does
      not fold impose nothing. */
  predicate Computes(o: Op, v: bool, args: seq<Wire>) {
    match o
    case Not => 1 <= |args| ==> v == !args[0].value
    case And => |args| == 2 ==> v == (args[0].value && args[1].value)
    case Or => |args| == 2 ==> v == (args[0].value || args[1].value)
    case Xor => |args| == 2 ==> v == (args[0].value != args[1].value)
    case _ => true
  }

  /** Two wires driven by the same gate carry the same value. */
  predicate Consistent(args: seq<Wire>) {
    forall i, j :: 0 <= i < |args| && 0 <= j < |args| && args[i].gate == args[j].gate ==>
      args[i].value == args[j].value
  }

  /** The value a replacement wire carries; none for `Keep` and errors. */
  function Carries(r: Rewrite): (b: Option<bool>)
    ensures b.Some? <==> r.Constant? || r.Operand? || r.Negation?
  {
    match r
    case Constant(b) => Some(b)
    case Operand(w) => Some(w.value)
    case Negation(value, _) => Some(value)
    case _ => None
  }

  /** Soundness: whatever the hook substitutes carries the value `v` the
      gate would have computed. */
  lemma BitOptimizeSound(o: Op, v: bool, args: seq<Wire>)
    requires Computes(o, v, args) && Consistent(args)
    ensures Carries(BitOptimize(o, v, args)).Some? ==> Carries(BitOptimize(o, v, args)).value == v
  {
    if o != Not && |args| == 2 && args[0].gate == args[1].gate {
      assert args[0].value == args[1].value;
    }
  }

  /** The gate is kept exactly when no rule applies: a NOT of a wire that is
      not constant; two non-constant operands of AND or OR; two non-constant
      operands of XOR from different gates; or any other operation on
      operands that are not both constant. */
  lemma BitOptimizeKeeps(o: Op, v: bool, args: seq<Wire>)
    ensures BitOptimize(o, v, args) == Keep <==>
      || (o == Not && 1 <= |args| && !args[0].isConstant)
      || (&& o != Not && |args| == 2
          && !(args[0].isConstant && args[1].isConstant)
          && (o == And || o == Or ==> !args[0].isConstant && !args[1].isConstant)
          && (o == Xor ==> !args[0].isConstant && !args[1].isConstant && args[0].gate != args[1].gate))
  {
  }

  /** Operands from the same gate cancel under XOR, before any constant is
      looked at. */
  lemma XorSameGate(v: bool, x: Wire, y: Wire)
    requires x.gate == y.gate && !(x.isConstant && y.isConstant)
    ensures BitOptimize(Xor, v, [x, y]) == Constant(false)
  {
  }
}
