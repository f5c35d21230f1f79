/** The symbolic transcription of a chromosome: the same register program run
    over expression trees instead of numeric columns.

    Registers start as in the decoder, with the symbol `x_i` for data
    dimension `i` (in column `i` and column `-i - 2`), the symbol `t` for time
    (in column `data_dim` and the last column), the Python number 0 in the
    other variable and mirror registers, and the literals in between.  The
    arithmetic opcodes use Python's operators: on two plain numbers they
    compute a number, otherwise they build a tree node.  DIV by an operand
    equal to 0 yields `mpmath.inf`, which Python then treats as a number:
    `1 / inf` is 0, `inf - inf` and `inf * 0` are `nan`.  Simplifying and printing the tree
    is left to an external computer-algebra system.
 */
module Transcriber {
  import opened Genome
  import Interpreter

  /** The expression tree: symbols, numbers, one node per opcode, and the
      three special `mpmath` values: `inf` (what DIV by 0 yields), and the
      `-inf` and `nan` that arithmetic on `inf` can produce. */
  datatype Expr =
    | X(dim: nat)
    | T
    | Lit(value: real)
    | Inf
    | NegInf
    | NaN
    | Add(left: Expr, right: Expr)
    | Sub(left: Expr, right: Expr)
    | Mul(left: Expr, right: Expr)
    | Div(left: Expr, right: Expr)
    | Sin(arg: Expr)
    | Cos(arg: Expr)
    | Abs(arg: Expr)

  /** A plain Python or `mpmath` number rather than a symbolic tree. */
  predicate IsNumber(e: Expr) {
    e.Lit? || e.Inf? || e.NegInf? || e.NaN?
  }

  /** One of the non-finite `mpmath` values. */
  predicate IsSpecial(e: Expr) {
    e.Inf? || e.NegInf? || e.NaN?
  }

  /** Strictly below zero: `-inf` or a negative number. */
  predicate IsNegative(e: Expr) {
    e.NegInf? || (e.Lit? && e.value < 0.0)
  }

  /** `-a` on a number. */
  function Negate(a: Expr): (r: Expr)
    requires IsNumber(a)
    ensures IsNumber(r) && (IsSpecial(r) <==> IsSpecial(a))
  {
    if a.Lit? then Lit(-a.value)
    else if a.Inf? then NegInf
    else if a.NegInf? then Inf
    else NaN
  }

  /** `a + b` on two numbers, with IEEE/`mpmath` rules for the infinities. */
  function NumAdd(a: Expr, b: Expr): (r: Expr)
    requires IsNumber(a) && IsNumber(b)
    ensures IsNumber(r)
    ensures a.Lit? && b.Lit? ==> r == Lit(a.value + b.value)
    ensures IsSpecial(a) || IsSpecial(b) ==> IsSpecial(r)
  {
    if a.NaN? || b.NaN? then NaN
    else if a.Lit? && b.Lit? then Lit(a.value + b.value)
    else if (a.Inf? && b.NegInf?) || (a.NegInf? && b.Inf?) then NaN
    else if a.Inf? || b.Inf? then Inf
    else NegInf
  }

  /** `a * b` on two numbers: an infinity times zero is `nan`, otherwise the
      signs decide. */
  function NumMul(a: Expr, b: Expr): (r: Expr)
    requires IsNumber(a) && IsNumber(b)
    ensures IsNumber(r)
    ensures a.Lit? && b.Lit? ==> r == Lit(a.value * b.value)
    ensures IsSpecial(a) || IsSpecial(b) ==> IsSpecial(r)
  {
    if a.NaN? || b.NaN? then NaN
    else if a.Lit? && b.Lit? then Lit(a.value * b.value)
    else if a == Lit(0.0) || b == Lit(0.0) then NaN
    else if IsNegative(a) != IsNegative(b) then NegInf
    else Inf
  }

  /** `a / b` on two numbers with `b` not equal to 0: a finite number over an
      infinity is 0, an infinity over an infinity is `nan`. */
  function NumDiv(a: Expr, b: Expr): (r: Expr)
    requires IsNumber(a) && IsNumber(b) && b != Lit(0.0)
    ensures IsNumber(r)
    ensures a.Lit? && b.Lit? ==> r == Lit(a.value / b.value)
    ensures IsSpecial(a) ==> IsSpecial(r)
    ensures a.Lit? && (b.Inf? || b.NegInf?) ==> r == Lit(0.0)
  {
    if a.NaN? || b.NaN? then NaN
    else if a.Lit? && b.Lit? then Lit(a.value / b.value)
    else if a.Lit? then Lit(0.0)
    else if b.Lit? then (if IsNegative(a) != IsNegative(b) then NegInf else Inf)
    else NaN
  }

  /** Python's `a + b`: two numbers add up to a number, anything else is a node. */
  function Plus(a: Expr, b: Expr): Expr {
    if IsNumber(a) && IsNumber(b) then NumAdd(a, b) else Add(a, b)
  }

  function Minus(a: Expr, b: Expr): Expr {
    if IsNumber(a) && IsNumber(b) then NumAdd(a, Negate(b)) else Sub(a, b)
  }

  function Times(a: Expr, b: Expr): Expr {
    if IsNumber(a) && IsNumber(b) then NumMul(a, b) else Mul(a, b)
  }

  /** Python's `a / b`, used only when `b` is not equal to 0. */
  function Over(a: Expr, b: Expr): Expr
    requires b != Lit(0.0)
  {
    if IsNumber(a) && IsNumber(b) then NumDiv(a, b) else Div(a, b)
  }

  /** The value the opcode chain of `get_symbolic_expression` assigns. */
  function SymApply(op: int, a: Expr, b: Expr): Expr
    requires Interpreter.KnownOp(op)
  {
    match op
    case 0 => Plus(a, b)
    case 1 => Minus(a, b)
    case 2 => Times(a, b)
    case 3 => if b == Lit(0.0) then Inf else Over(a, b)
    case 4 => Sin(a)
    case 5 => Cos(a)
    case 6 => Abs(a)
  }

  /** The opcode folds two numbers one of which is special, where Python's
      arithmetic on `inf` and the decoder's arithmetic on its sentinel part. */
  predicate FoldsSpecial(op: int, a: Expr, b: Expr) {
    0 <= op <= 3 && !(op == 3 && b == Lit(0.0)) &&
    IsNumber(a) && IsNumber(b) && (IsSpecial(a) || IsSpecial(b))
  }

  /** One instruction on the symbolic registers. */
  function SymStep(regs: seq<Expr>, ins: Instruction): (r: seq<Expr>)
    requires Interpreter.InRange(ins, |regs|)
    ensures |r| == |regs|
  {
    var w := |regs|;
    if Interpreter.KnownOp(ins.op)
    then regs[Interpreter.Col(ins.dest, w) := SymApply(ins.op, regs[Interpreter.Col(ins.src1, w)], regs[Interpreter.Col(ins.src2, w)])]
    else regs
  }

  /** The symbolic registers after the first `k` instructions. */
  function SymRun(regs: seq<Expr>, c: Chromosome, k: nat): (r: seq<Expr>)
    requires k <= NumInstructions(c) && Interpreter.Fits(c, |regs|)
    ensures |r| == |regs|
  {
    if k == 0 then regs else SymStep(SymRun(regs, c, k - 1), InstructionAt(c, k - 1))
  }

  /** `x0, x1, ...` for the data dimensions. */
  function Symbols(dim: nat): (s: seq<Expr>)
    ensures |s| == dim && forall i :: 0 <= i < dim ==> s[i] == X(i)
  {
    seq(dim, i requires 0 <= i < dim => X(i))
  }

  function Literals(consts: seq<real>): (s: seq<Expr>)
    ensures |s| == |consts| && forall i :: 0 <= i < |consts| ==> s[i] == Lit(consts[i])
  {
    seq(|consts|, i requires 0 <= i < |consts| => Lit(consts[i]))
  }

  /** The seeded symbolic registers: the decoder's layout over symbols. */
  function SymSeed(consts: seq<real>, numVarReg: nat, dim: nat): (r: seq<Expr>)
    ensures |r| == Interpreter.Width(numVarReg, |consts|, dim)
  {
    Interpreter.Seed(Lit(0.0), Literals(consts), numVarReg, Symbols(dim), T, dim)
  }

  /** The tree `get_symbolic_expression` hands to the simplifier. */
  function Transcribe(c: Chromosome, consts: seq<real>, numVarReg: nat, dim: nat, currDim: int): Expr
    requires Interpreter.Fits(c, Interpreter.Width(numVarReg, |consts|, dim))
    requires -(Interpreter.Width(numVarReg, |consts|, dim) as int) <= currDim < Interpreter.Width(numVarReg, |consts|, dim)
  {
    var w := Interpreter.Width(numVarReg, |consts|, dim);
    SymRun(SymSeed(consts, numVarReg, dim), c, NumInstructions(c))[Interpreter.Col(currDim, w)]
  }

  /** `get_symbolic_expression` up to the call of the simplifier: the
      `combined_reg` list is seeded and then rewritten instruction by
      instruction. */
  method GetSymbolicExpression(c: Chromosome, consts: seq<real>, numVarReg: nat, dim: nat, currDim: int)
    returns (e: Expr)
    requires Interpreter.Fits(c, Interpreter.Width(numVarReg, |consts|, dim))
    requires -(Interpreter.Width(numVarReg, |consts|, dim) as int) <= currDim < Interpreter.Width(numVarReg, |consts|, dim)
    ensures e == Transcribe(c, consts, numVarReg, dim, currDim)
  {
    var base := Interpreter.BaseRegisters(Lit(0.0), Literals(consts), numVarReg, dim);
    var combined := base;
    var w := |combined|;
    for i := 0 to dim
      invariant combined == Interpreter.WriteData(base, Symbols(dim), i)
    {
      var x := X(i);
      combined := combined[i := x];
      combined := combined[w - i - 2 := x];
    }
    combined := combined[dim := T];
    combined := combined[w - 1 := T];
    var numInstructions := NumInstructions(c);
    for k := 0 to numInstructions
      invariant combined == SymRun(SymSeed(consts, numVarReg, dim), c, k)
    {
      var ins := InstructionAt(c, k);
      var dest := Interpreter.Col(ins.dest, w);
      var operand1 := combined[Interpreter.Col(ins.src1, w)];
      var operand2 := combined[Interpreter.Col(ins.src2, w)];
      if ins.op == 0 {
        combined := combined[dest := Plus(operand1, operand2)];
      } else if ins.op == 1 {
        combined := combined[dest := Minus(operand1, operand2)];
      } else if ins.op == 2 {
        combined := combined[dest := Times(operand1, operand2)];
      } else if ins.op == 3 && operand2 != Lit(0.0) {
        combined := combined[dest := Over(operand1, operand2)];
      } else if ins.op == 3 && operand2 == Lit(0.0) {
        combined := combined[dest := Inf];
      } else if ins.op == 4 {
        combined := combined[dest := Sin(operand1)];
      } else if ins.op == 5 {
        combined := combined[dest := Cos(operand1)];
      } else if ins.op == 6 {
        combined := combined[dest := Abs(operand1)];
      }
    }
    e := combined[Interpreter.Col(currDim, w)];
  }

  // ---------------------------------------------------------------------
  // The tree denotes what the decoder computes

  /** The value of a tree for one data row `xs` and time `t`, read with the
      decoder's arithmetic: DIV is guarded and `inf` stands for the decoder's
      sentinel, as it does where a DIV by 0 creates it.  The decoder has no
      counterpart of `-inf` and `nan`, which only arise by folding an
      infinity; they read as the negated sentinel and 0.  Symbols beyond the
      row read as 0; the transcriber only creates `x_i` for `i < data_dim`. */
  function Eval(trig: Interpreter.Trig, e: Expr, xs: seq<real>, t: real): real {
    match e
    case X(i) => if i < |xs| then xs[i] else 0.0
    case T => t
    case Lit(v) => v
    case Inf => Interpreter.Sentinel
    case NegInf => -Interpreter.Sentinel
    case NaN => 0.0
    case Add(a, b) => Eval(trig, a, xs, t) + Eval(trig, b, xs, t)
    case Sub(a, b) => Eval(trig, a, xs, t) - Eval(trig, b, xs, t)
    case Mul(a, b) => Eval(trig, a, xs, t) * Eval(trig, b, xs, t)
    case Div(a, b) => Interpreter.Divide(Eval(trig, a, xs, t), Eval(trig, b, xs, t))
    case Sin(a) => trig.sin(Eval(trig, a, xs, t))
    case Cos(a) => trig.cos(Eval(trig, a, xs, t))
    case Abs(a) => Interpreter.Abs(Eval(trig, a, xs, t))
  }

  /** Every register of a symbolic row evaluates to the same register of a
      numeric row. */
  predicate Denotes(trig: Interpreter.Trig, sym: seq<Expr>, num: seq<real>, xs: seq<real>, t: real) {
    |sym| == |num| && forall col :: 0 <= col < |sym| ==> Eval(trig, sym[col], xs, t) == num[col]
  }

  /** Python's folding of two finite numbers agrees with the node it
      replaces, one opcode at a time. */
  lemma PlusEval(trig: Interpreter.Trig, a: Expr, b: Expr, xs: seq<real>, t: real)
    requires !FoldsSpecial(0, a, b)
    ensures Eval(trig, SymApply(0, a, b), xs, t) ==
      Interpreter.Apply(trig, 0, Eval(trig, a, xs, t), Eval(trig, b, xs, t))
  {
    if IsNumber(a) && IsNumber(b) {
      assert a.Lit? && b.Lit?;
      assert Plus(a, b) == Lit(a.value + b.value);
    } else {
      assert Plus(a, b) == Add(a, b);
    }
  }

  lemma MinusEval(trig: Interpreter.Trig, a: Expr, b: Expr, xs: seq<real>, t: real)
    requires !FoldsSpecial(1, a, b)
    ensures Eval(trig, SymApply(1, a, b), xs, t) ==
      Interpreter.Apply(trig, 1, Eval(trig, a, xs, t), Eval(trig, b, xs, t))
  {
    if IsNumber(a) && IsNumber(b) {
      assert a.Lit? && b.Lit?;
      assert Minus(a, b) == Lit(a.value - b.value);
    } else {
      assert Minus(a, b) == Sub(a, b);
    }
  }

  lemma TimesEval(trig: Interpreter.Trig, a: Expr, b: Expr, xs: seq<real>, t: real)
    requires !FoldsSpecial(2, a, b)
    ensures Eval(trig, SymApply(2, a, b), xs, t) ==
      Interpreter.Apply(trig, 2, Eval(trig, a, xs, t), Eval(trig, b, xs, t))
  {
    if IsNumber(a) && IsNumber(b) {
      assert a.Lit? && b.Lit?;
      var x, y := a.value, b.value;
      assert Times(a, b) == Lit(x * y);
      assert Eval(trig, Times(a, b), xs, t) == x * y;
    } else {
      assert Times(a, b) == Mul(a, b);
    }
  }

  lemma QuotEval(trig: Interpreter.Trig, a: Expr, b: Expr, xs: seq<real>, t: real)
    requires !FoldsSpecial(3, a, b)
    ensures Eval(trig, SymApply(3, a, b), xs, t) ==
      Interpreter.Apply(trig, 3, Eval(trig, a, xs, t), Eval(trig, b, xs, t))
  {
    if b != Lit(0.0) && a.Lit? && b.Lit? {
      assert Eval(trig, b, xs, t) == b.value != 0.0;
    }
  }

  lemma UnaryEval(trig: Interpreter.Trig, op: int, a: Expr, b: Expr, xs: seq<real>, t: real)
    requires 4 <= op <= 6
    ensures Eval(trig, SymApply(op, a, b), xs, t) ==
      Interpreter.Apply(trig, op, Eval(trig, a, xs, t), Eval(trig, b, xs, t))
  {
  }

  /** Each opcode's tree evaluates to the decoder's value on the operands'
      values, unless it folds an infinity or `nan` with a number. */
  lemma SymApplyEval(trig: Interpreter.Trig, op: int, a: Expr, b: Expr, xs: seq<real>, t: real)
    requires Interpreter.KnownOp(op) && !FoldsSpecial(op, a, b)
    ensures Eval(trig, SymApply(op, a, b), xs, t) ==
      Interpreter.Apply(trig, op, Eval(trig, a, xs, t), Eval(trig, b, xs, t))
  {
    match op
    case 0 => PlusEval(trig, a, b, xs, t);
    case 1 => MinusEval(trig, a, b, xs, t);
    case 2 => TimesEval(trig, a, b, xs, t);
    case 3 => QuotEval(trig, a, b, xs, t);
    case _ => UnaryEval(trig, op, a, b, xs, t);
  }

  lemma {:induction false} WriteDataDenotes(trig: Interpreter.Trig, sym: seq<Expr>, num: seq<real>,
                                            xs: seq<real>, t: real, dim: nat, i: nat)
    requires Denotes(trig, sym, num, xs, t) && i <= dim <= |xs| && i < |sym|
    ensures Denotes(trig, Interpreter.WriteData(sym, Symbols(dim), i), Interpreter.WriteData(num, xs, i), xs, t)
  {
    if i > 0 {
      WriteDataDenotes(trig, sym, num, xs, t, dim, i - 1);
    }
  }

  /** The symbolic seed denotes the numeric seed of any row with at least
      `dim` data values. */
  lemma SeedDenotes(trig: Interpreter.Trig, consts: seq<real>, numVarReg: nat, xs: seq<real>, t: real, dim: nat)
    requires dim <= |xs|
    ensures Denotes(trig, SymSeed(consts, numVarReg, dim), Interpreter.Seed(0.0, consts, numVarReg, xs, t, dim), xs, t)
  {
    var symBase := Interpreter.BaseRegisters(Lit(0.0), Literals(consts), numVarReg, dim);
    var numBase := Interpreter.BaseRegisters(0.0, consts, numVarReg, dim);
    assert Denotes(trig, symBase, numBase, xs, t) by {
      forall col | 0 <= col < |symBase|
        ensures Eval(trig, symBase[col], xs, t) == numBase[col]
      {
        if numVarReg <= col < numVarReg + |consts| {
          assert symBase[col] == Lit(consts[col - numVarReg]);
        }
      }
    }
    WriteDataDenotes(trig, symBase, numBase, xs, t, dim, dim);
  }

  /** None of the first `k` instructions folds an infinity or `nan` with a
      number. */
  predicate NoSpecialFolding(regs: seq<Expr>, c: Chromosome, k: nat)
    requires k <= NumInstructions(c) && Interpreter.Fits(c, |regs|)
  {
    k == 0 ||
    (NoSpecialFolding(regs, c, k - 1) &&
     var s, ins, w := SymRun(regs, c, k - 1), InstructionAt(c, k - 1), |regs|;
     !FoldsSpecial(ins.op, s[Interpreter.Col(ins.src1, w)], s[Interpreter.Col(ins.src2, w)]))
  }

  /** Running the program keeps the symbolic registers denoting the numeric
      ones as long as no infinity is folded. */
  lemma {:induction false} SymRunDenotes(trig: Interpreter.Trig, sym: seq<Expr>, num: seq<real>,
                                         xs: seq<real>, t: real, c: Chromosome, k: nat)
    requires Denotes(trig, sym, num, xs, t) && k <= NumInstructions(c) && Interpreter.Fits(c, |sym|)
    requires NoSpecialFolding(sym, c, k)
    ensures Denotes(trig, SymRun(sym, c, k), Interpreter.Run(trig, num, c, k), xs, t)
  {
    if k > 0 {
      SymRunDenotes(trig, sym, num, xs, t, c, k - 1);
      var ins := InstructionAt(c, k - 1);
      if Interpreter.KnownOp(ins.op) {
        var s := SymRun(sym, c, k - 1);
        var w := |sym|;
        SymApplyEval(trig, ins.op, s[Interpreter.Col(ins.src1, w)], s[Interpreter.Col(ins.src2, w)], xs, t);
      }
    }
  }

  /** The transcribed tree, evaluated on a data row, is exactly what
      `decode_chromosome` returns for that row, for every program that does
      not fold an infinity (`InfinityFoldingDiverges` shows one that does). */
  lemma TranscribeMatchesDecode(trig: Interpreter.Trig, c: Chromosome, consts: seq<real>, numVarReg: nat,
                                data: seq<seq<real>>, times: seq<real>, dim: nat, currDim: int, r: nat)
    requires Interpreter.DecodeInput(c, consts, numVarReg, data, times, dim, currDim) && r < |data|
    requires NoSpecialFolding(SymSeed(consts, numVarReg, dim), c, NumInstructions(c))
    ensures Eval(trig, Transcribe(c, consts, numVarReg, dim, currDim), data[r], times[r]) ==
            Interpreter.DecodeSpec(trig, c, consts, numVarReg, data, times, dim, currDim)[r]
  {
    SeedDenotes(trig, consts, numVarReg, data[r], times[r], dim);
    SymRunDenotes(trig, SymSeed(consts, numVarReg, dim), Interpreter.Seed(0.0, consts, numVarReg, data[r], times[r], dim),
                  data[r], times[r], c, NumInstructions(c));
  }

  /** Without a DIV instruction no infinity ever arises, so every such
      program transcribes to a tree that matches the decoder. */
  lemma {:induction false} NoDivisionNoFolding(regs: seq<Expr>, c: Chromosome, k: nat)
    requires k <= NumInstructions(c) && Interpreter.Fits(c, |regs|)
    requires forall col :: 0 <= col < |regs| ==> !IsSpecial(regs[col])
    requires forall j :: 0 <= j < k ==> InstructionAt(c, j).op != 3
    ensures NoSpecialFolding(regs, c, k)
    ensures forall col :: 0 <= col < |regs| ==> !IsSpecial(SymRun(regs, c, k)[col])
  {
    if k > 0 {
      NoDivisionNoFolding(regs, c, k - 1);
    }
  }

  /** Where the two readings part: DIV by 0 leaves `inf` in register 2,
      `1 / inf` folds to the number 0 in register 3, while the decoder holds
      `1 / 99999999` there. */
  lemma InfinityFoldingDiverges(trig: Interpreter.Trig)
    ensures var c := [3, 2, 5, 3, 3, 3, 5, 2];
      Interpreter.Width(5, 1, 1) == 8 &&
      Transcribe(c, [1.0], 5, 1, 3) == Lit(0.0) &&
      Interpreter.DecodeInput(c, [1.0], 5, [[2.0]], [0.5], 1, 3) &&
      Interpreter.DecodeSpec(trig, c, [1.0], 5, [[2.0]], [0.5], 1, 3) == [1.0 / Interpreter.Sentinel]
  {
    var c := [3, 2, 5, 3, 3, 3, 5, 2];
    assert InstructionAt(c, 0) == Instruction(3, 2, 5, 3);
    assert InstructionAt(c, 1) == Instruction(3, 3, 5, 2);
    SymbolicExample(c);
    NumericExample(trig, c);
  }

  lemma SymbolicExample(c: Chromosome)
    requires c == [3, 2, 5, 3, 3, 3, 5, 2]
    requires InstructionAt(c, 0) == Instruction(3, 2, 5, 3) && InstructionAt(c, 1) == Instruction(3, 3, 5, 2)
    ensures Interpreter.Fits(c, 8) && SymRun(SymSeed([1.0], 5, 1), c, 2)[3] == Lit(0.0)
  {
    var sym := SymSeed([1.0], 5, 1);
    assert sym == [X(0), T, Lit(0.0), Lit(0.0), Lit(0.0), Lit(1.0), X(0), T];
    assert SymRun(sym, c, 0) == sym;
    var s1 := SymRun(sym, c, 1);
    assert s1 == SymStep(sym, Instruction(3, 2, 5, 3));
    assert s1 == sym[2 := Inf];
    assert SymRun(sym, c, 2) == s1[3 := Over(Lit(1.0), Inf)];
  }

  lemma NumericExample(trig: Interpreter.Trig, c: Chromosome)
    requires c == [3, 2, 5, 3, 3, 3, 5, 2]
    requires InstructionAt(c, 0) == Instruction(3, 2, 5, 3) && InstructionAt(c, 1) == Instruction(3, 3, 5, 2)
    ensures Interpreter.Fits(c, 8) && Interpreter.DecodeInput(c, [1.0], 5, [[2.0]], [0.5], 1, 3)
    ensures Interpreter.DecodeSpec(trig, c, [1.0], 5, [[2.0]], [0.5], 1, 3) == [1.0 / Interpreter.Sentinel]
  {
    var num := Interpreter.Seed(0.0, [1.0], 5, [2.0], 0.5, 1);
    assert num == [2.0, 0.5, 0.0, 0.0, 0.0, 1.0, 2.0, 0.5];
    assert Interpreter.Run(trig, num, c, 0) == num;
    var n1 := Interpreter.Run(trig, num, c, 1);
    assert n1 == Interpreter.Step(trig, num, Instruction(3, 2, 5, 3));
    assert n1 == num[2 := Interpreter.Sentinel];
    assert Interpreter.Run(trig, num, c, 2)[3] == Interpreter.Divide(1.0, Interpreter.Sentinel);
  }

  /** With no whole instruction the tree is the symbol of the target
      dimension. */
  lemma TranscribeNoInstructions(c: Chromosome, consts: seq<real>, numVarReg: nat, dim: nat, currDim: nat)
    requires NumInstructions(c) == 0 && currDim < dim < numVarReg
    ensures Interpreter.Fits(c, Interpreter.Width(numVarReg, |consts|, dim))
    ensures Transcribe(c, consts, numVarReg, dim, currDim) == X(currDim)
  {
    Interpreter.WriteDataAt(Interpreter.BaseRegisters(Lit(0.0), Literals(consts), numVarReg, dim), Symbols(dim), dim, currDim);
  }

  /** The last instruction changes only its destination, DIV by an operand
      equal to 0 yields the infinity marker, and an unknown opcode changes
      nothing. */
  lemma {:induction false} SymLastInstruction(c: Chromosome, ins: Instruction, consts: seq<real>, numVarReg: nat, dim: nat)
    requires |c| % 4 == 0
    requires Interpreter.Fits(c, Interpreter.Width(numVarReg, |consts|, dim))
    requires Interpreter.InRange(ins, Interpreter.Width(numVarReg, |consts|, dim))
    ensures var c' := c + [ins.op, ins.dest, ins.src1, ins.src2];
      var w := Interpreter.Width(numVarReg, |consts|, dim);
      Interpreter.Fits(c', w) &&
      var before := SymRun(SymSeed(consts, numVarReg, dim), c, NumInstructions(c));
      var after := SymRun(SymSeed(consts, numVarReg, dim), c', NumInstructions(c'));
      (forall col :: 0 <= col < w && col != Interpreter.Col(ins.dest, w) ==> after[col] == before[col]) &&
      (ins.op == 3 && before[Interpreter.Col(ins.src2, w)] == Lit(0.0) ==> after[Interpreter.Col(ins.dest, w)] == Inf) &&
      (!Interpreter.KnownOp(ins.op) ==> after == before)
  {
    var c' := c + [ins.op, ins.dest, ins.src1, ins.src2];
    var n := NumInstructions(c);
    var seed := SymSeed(consts, numVarReg, dim);
    assert NumInstructions(c') == n + 1;
    assert forall k :: 0 <= k < n ==> InstructionAt(c', k) == InstructionAt(c, k);
    assert InstructionAt(c', n) == ins;
    SymRunPrefix(seed, c', c, n);
    var w := Interpreter.Width(numVarReg, |consts|, dim);
    var before := SymRun(seed, c, n);
    var after := SymRun(seed, c', n + 1);
    assert after == SymStep(before, ins);
    if Interpreter.KnownOp(ins.op) {
      var v := SymApply(ins.op, before[Interpreter.Col(ins.src1, w)], before[Interpreter.Col(ins.src2, w)]);
      assert after == before[Interpreter.Col(ins.dest, w) := v];
    }
  }

  lemma {:induction false} SymRunPrefix(regs: seq<Expr>, c: Chromosome, c': Chromosome, k: nat)
    requires k <= NumInstructions(c) && k <= NumInstructions(c')
    requires Interpreter.Fits(c, |regs|) && Interpreter.Fits(c', |regs|)
    requires forall j :: 0 <= j < k ==> InstructionAt(c, j) == InstructionAt(c', j)
    ensures SymRun(regs, c, k) == SymRun(regs, c', k)
  {
    if k > 0 {
      SymRunPrefix(regs, c, c', k - 1);
    }
  }
}
