/** The register machine that decodes a chromosome over a batch of input rows.

    The register file is a matrix with one row per sample.  Its columns are the
    variable registers, then the constant literals, then `data_dim + 1`
    mirror columns; before any instruction runs, data column `i` is copied to
    column `i` and to column `-i - 2`, and the time vector to column
    `data_dim` and to the last column.  Every instruction then rewrites the
    column of its destination register, row by row.  Register values are
    reals; sine and cosine are supplied by the caller.
 */
module Interpreter {
  import opened Genome

  /** The value DIV writes for a row whose divisor is zero. */
  const Sentinel: real := 99999999.0

  /** `np.sin` and `np.cos`, which the model does not define. */
  datatype Trig = Trig(sin: real -> real, cos: real -> real)

  function Abs(x: real): real {
    if x < 0.0 then -x else x
  }

  /** The opcodes 0..6: ADD, SUB, MUL, DIV, SIN, COS, ABS. */
  predicate KnownOp(op: int) {
    0 <= op <= 6
  }

  /** DIV with its zero guard. */
  function Divide(a: real, b: real): real {
    if b == 0.0 then Sentinel else a / b
  }

  /** The value an opcode computes from its two operands (SIN, COS and ABS
      ignore the second). */
  function Apply(trig: Trig, op: int, a: real, b: real): real
    requires KnownOp(op)
  {
    match op
    case 0 => a + b
    case 1 => a - b
    case 2 => a * b
    case 3 => Divide(a, b)
    case 4 => trig.sin(a)
    case 5 => trig.cos(a)
    case 6 => Abs(a)
  }

  /** A python or numpy index into `width` columns: a negative index counts
      from the end. */
  function Col(i: int, width: nat): (c: nat)
    requires -(width as int) <= i < width
    ensures c < width
    ensures i >= 0 ==> c == i
  {
    if i < 0 then width + i else i
  }

  /** The register indices of `ins` are legal indices of `width` columns. */
  predicate InRange(ins: Instruction, width: nat) {
    var lo := -(width as int);
    lo <= ins.dest < width && lo <= ins.src1 < width && lo <= ins.src2 < width
  }

  /** Every whole instruction of `c` addresses existing columns; numpy
      raises an IndexError otherwise. */
  predicate Fits(c: Chromosome, width: nat) {
    forall k :: 0 <= k < NumInstructions(c) ==> InRange(InstructionAt(c, k), width)
  }

  /** Number of columns: variable registers, constants, data_dim + 1 mirrors. */
  function Width(numVarReg: nat, numConsts: nat, dataDim: nat): nat {
    numVarReg + numConsts + dataDim + 1
  }

  function Repeat<V>(v: V, n: nat): (r: seq<V>)
    ensures |r| == n && forall i :: 0 <= i < n ==> r[i] == v
  {
    seq(n, _ => v)
  }

  /** `var_reg + const_reg + [0] * (data_dim + 1)`. */
  function BaseRegisters<V>(zero: V, consts: seq<V>, numVarReg: nat, dataDim: nat): (r: seq<V>)
    ensures |r| == Width(numVarReg, |consts|, dataDim)
  {
    Repeat(zero, numVarReg) + consts + Repeat(zero, dataDim + 1)
  }

  /** The first `i` passes of the seeding loop: data value `j` is written to
      column `j`, then to column `-j - 2`. */
  function WriteData<V>(regs: seq<V>, xs: seq<V>, i: nat): (r: seq<V>)
    requires i <= |xs| && i < |regs|
    ensures |r| == |regs|
  {
    if i == 0 then regs
    else WriteData(regs, xs, i - 1)[i - 1 := xs[i - 1]][|regs| - i - 1 := xs[i - 1]]
  }

  /** One row of the seeded register file, generic in the value type so that
      the numeric decoder and the symbolic transcriber share it. */
  function Seed<V>(zero: V, consts: seq<V>, numVarReg: nat, xs: seq<V>, t: V, dataDim: nat): (r: seq<V>)
    requires dataDim <= |xs|
    ensures |r| == Width(numVarReg, |consts|, dataDim)
  {
    var base := BaseRegisters(zero, consts, numVarReg, dataDim);
    WriteData(base, xs, dataDim)[dataDim := t][|base| - 1 := t]
  }

  /** One instruction on one row: only the destination column changes, and
      an unknown opcode changes nothing. */
  function Step(trig: Trig, regs: seq<real>, ins: Instruction): (r: seq<real>)
    requires InRange(ins, |regs|)
    ensures |r| == |regs|
    ensures forall col :: 0 <= col < |regs| && col != Col(ins.dest, |regs|) ==> r[col] == regs[col]
    ensures KnownOp(ins.op) ==>
      r[Col(ins.dest, |regs|)] == Apply(trig, ins.op, regs[Col(ins.src1, |regs|)], regs[Col(ins.src2, |regs|)])
    ensures !KnownOp(ins.op) ==> r == regs
  {
    var w := |regs|;
    if KnownOp(ins.op) then regs[Col(ins.dest, w) := Apply(trig, ins.op, regs[Col(ins.src1, w)], regs[Col(ins.src2, w)])]
    else regs
  }

  /** The registers of one row after the first `k` instructions of `c`. */
  function Run(trig: Trig, regs: seq<real>, c: Chromosome, k: nat): (r: seq<real>)
    requires k <= NumInstructions(c) && Fits(c, |regs|)
    ensures |r| == |regs|
  {
    if k == 0 then regs else Step(trig, Run(trig, regs, c, k - 1), InstructionAt(c, k - 1))
  }

  /** Shape of the input of one decode: there is at least one row (with no
      rows numpy builds a one-dimensional `reg_mat`, whose column
      assignments fail), every row has at
      least `data_dim` data columns, there is one time per row, and the
      program and target column address existing registers. */
  predicate DecodeInput(c: Chromosome, consts: seq<real>, numVarReg: nat, data: seq<seq<real>>,
                        times: seq<real>, dataDim: nat, currDim: int)
  {
    var w := Width(numVarReg, |consts|, dataDim);
    1 <= |data| && |times| == |data| &&
    (forall r :: 0 <= r < |data| ==> dataDim <= |data[r]|) &&
    Fits(c, w) && -(w as int) <= currDim < w
  }

  /** All registers of one row once the whole program has run. */
  function Registers(trig: Trig, c: Chromosome, consts: seq<real>, numVarReg: nat,
                     xs: seq<real>, t: real, dataDim: nat): (r: seq<real>)
    requires dataDim <= |xs| && Fits(c, Width(numVarReg, |consts|, dataDim))
    ensures |r| == Width(numVarReg, |consts|, dataDim)
  {
    Run(trig, Seed(0.0, consts, numVarReg, xs, t, dataDim), c, NumInstructions(c))
  }

  /** What `decode_chromosome` returns: column `curr_dim` of the final
      register file, row by row. */
  function DecodeSpec(trig: Trig, c: Chromosome, consts: seq<real>, numVarReg: nat,
                      data: seq<seq<real>>, times: seq<real>, dataDim: nat, currDim: int): (out: seq<real>)
    requires DecodeInput(c, consts, numVarReg, data, times, dataDim, currDim)
    ensures |out| == |data|
  {
    var w := Width(numVarReg, |consts|, dataDim);
    seq(|data|, r requires 0 <= r < |data| =>
      Registers(trig, c, consts, numVarReg, data[r], times[r], dataDim)[Col(currDim, w)])
  }

  /** `data[:, i]`. */
  function DataColumn(data: seq<seq<real>>, i: nat): (col: seq<real>)
    requires forall r :: 0 <= r < |data| ==> i < |data[r]|
    ensures |col| == |data|
  {
    seq(|data|, r requires 0 <= r < |data| => data[r][i])
  }

  /** `reg_mat[:, col]`. */
  function Column(m: array2<real>, col: nat): (s: seq<real>)
    requires col < m.Length1
    reads m
    ensures |s| == m.Length0 && forall r :: 0 <= r < m.Length0 ==> s[r] == m[r, col]
  {
    seq(m.Length0, r requires 0 <= r < m.Length0 reads m => m[r, col])
  }

  /** `reg_mat[:, d] = vals`: a vectorised column assignment. */
  method SetColumn(m: array2<real>, d: nat, vals: seq<real>)
    requires d < m.Length1 && |vals| == m.Length0
    modifies m
    ensures forall r, col :: 0 <= r < m.Length0 && 0 <= col < m.Length1 ==>
      m[r, col] == if col == d then vals[r] else old(m[r, col])
  {
    for r := 0 to m.Length0
      invariant forall r', col :: 0 <= r' < m.Length0 && 0 <= col < m.Length1 ==>
        m[r', col] == if col == d && r' < r then vals[r'] else old(m[r', col])
    {
      m[r, d] := vals[r];
    }
  }

  /** The seeding part of `decode_chromosome`: every row starts as a copy of
      `combined_reg`, then the data and time columns are written. */
  method SeedRegisters(consts: seq<real>, numVarReg: nat, data: seq<seq<real>>, times: seq<real>, dataDim: nat)
    returns (m: array2<real>)
    requires 1 <= |data| && |times| == |data| && forall r :: 0 <= r < |data| ==> dataDim <= |data[r]|
    ensures fresh(m) && m.Length0 == |data| && m.Length1 == Width(numVarReg, |consts|, dataDim)
    ensures forall r, col :: 0 <= r < m.Length0 && 0 <= col < m.Length1 ==>
      m[r, col] == Seed(0.0, consts, numVarReg, data[r], times[r], dataDim)[col]
  {
    var combined := BaseRegisters(0.0, consts, numVarReg, dataDim);
    var w := |combined|;
    m := new real[|data|, w]((r, col) requires 0 <= col < w => combined[col]);
    for i := 0 to dataDim
      invariant forall r, col :: 0 <= r < m.Length0 && 0 <= col < w ==>
        m[r, col] == WriteData(combined, data[r], i)[col]
    {
      var x := DataColumn(data, i);
      SetColumn(m, i, x);
      SetColumn(m, w - i - 2, x);
    }
    SetColumn(m, dataDim, times);
    SetColumn(m, w - 1, times);
  }

  /** One pass of the instruction loop of `decode_chromosome`: the
      vectorised opcodes assign a freshly computed column; DIV walks the
      rows; an unknown opcode only reports itself. */
  method Execute(trig: Trig, m: array2<real>, ins: Instruction)
    requires InRange(ins, m.Length1)
    modifies m
    ensures forall r, col :: 0 <= r < m.Length0 && 0 <= col < m.Length1 ==>
      m[r, col] ==
        if KnownOp(ins.op) && col == Col(ins.dest, m.Length1)
        then Apply(trig, ins.op, old(m[r, Col(ins.src1, m.Length1)]), old(m[r, Col(ins.src2, m.Length1)]))
        else old(m[r, col])
  {
    var w := m.Length1;
    var rows := m.Length0;
    var dest := Col(ins.dest, w);
    var operand1 := Column(m, Col(ins.src1, w));
    var operand2 := Column(m, Col(ins.src2, w));
    if ins.op == 3 {
      var a, b := Col(ins.src1, w), Col(ins.src2, w);
      for r := 0 to rows
        invariant forall r', col :: 0 <= r' < rows && 0 <= col < w ==>
          m[r', col] == if col == dest && r' < r then Divide(old(m[r', a]), old(m[r', b])) else old(m[r', col])
      {
        if m[r, b] == 0.0 {
          m[r, dest] := Sentinel;
        } else {
          m[r, dest] := m[r, a] / m[r, b];
        }
      }
    } else if KnownOp(ins.op) {
      var vals := seq(rows, r requires 0 <= r < rows => Apply(trig, ins.op, operand1[r], operand2[r]));
      SetColumn(m, dest, vals);
    }
  }

  /** `decode_chromosome`: seed the register file, run every whole
      instruction, return column `curr_dim`. */
  method Decode(trig: Trig, c: Chromosome, consts: seq<real>, numVarReg: nat,
                data: seq<seq<real>>, times: seq<real>, dataDim: nat, currDim: int)
    returns (decoded: seq<real>)
    requires DecodeInput(c, consts, numVarReg, data, times, dataDim, currDim)
    ensures decoded == DecodeSpec(trig, c, consts, numVarReg, data, times, dataDim, currDim)
  {
    var m := SeedRegisters(consts, numVarReg, data, times, dataDim);
    var w := m.Length1;
    var numInstructions := NumInstructions(c);
    for k := 0 to numInstructions
      invariant forall r, col :: 0 <= r < m.Length0 && 0 <= col < w ==>
        m[r, col] == Run(trig, Seed(0.0, consts, numVarReg, data[r], times[r], dataDim), c, k)[col]
    {
      Execute(trig, m, InstructionAt(c, k));
    }
    decoded := Column(m, Col(currDim, w));
    assert forall r :: 0 <= r < |data| ==>
      decoded[r] == DecodeSpec(trig, c, consts, numVarReg, data, times, dataDim, currDim)[r];
  }

  // ---------------------------------------------------------------------
  // Properties of the decoder

  /** Well-formed programs (operands drawn from `num_var_reg + num_const_reg`
      registers, where `num_const_reg = len(const_reg) + data_dim`) address
      existing columns, write only variable registers, and never read the
      last column, which holds the second copy of the time. */
  lemma WellFormedFits(c: Chromosome, numOperators: nat, consts: seq<real>, numVarReg: nat, dataDim: nat)
    requires WellFormed(c, Shape(numOperators, numVarReg, |consts| + dataDim))
    ensures Fits(c, Width(numVarReg, |consts|, dataDim))
    ensures forall k :: 0 <= k < NumInstructions(c) ==>
      var ins := InstructionAt(c, k);
      0 <= ins.dest < numVarReg &&
      0 <= ins.src1 < Width(numVarReg, |consts|, dataDim) - 1 &&
      0 <= ins.src2 < Width(numVarReg, |consts|, dataDim) - 1
  {
    var sh := Shape(numOperators, numVarReg, |consts| + dataDim);
    forall k | 0 <= k < NumInstructions(c)
      ensures var ins := InstructionAt(c, k);
        0 <= ins.dest < numVarReg &&
        0 <= ins.src1 < Width(numVarReg, |consts|, dataDim) - 1 &&
        0 <= ins.src2 < Width(numVarReg, |consts|, dataDim) - 1
    {
      RoleShift(1, k);
      RoleShift(2, k);
      RoleShift(3, k);
      assert 0 <= c[4 * k + 1] < sh.Domain(1);
      assert 0 <= c[4 * k + 2] < sh.Domain(2);
      assert 0 <= c[4 * k + 3] < sh.Domain(3);
    }
  }

  /** Only whole instructions matter: two programs that agree on their first
      `k` instructions leave the same registers after them. */
  lemma {:induction false} RunPrefix(trig: Trig, regs: seq<real>, c: Chromosome, c': Chromosome, k: nat)
    requires k <= NumInstructions(c) && k <= NumInstructions(c')
    requires Fits(c, |regs|) && Fits(c', |regs|)
    requires c[..4 * k] == c'[..4 * k]
    ensures Run(trig, regs, c, k) == Run(trig, regs, c', k)
  {
    if k > 0 {
      assert c[..4 * (k - 1)] == c[..4 * k][..4 * (k - 1)];
      assert c'[..4 * (k - 1)] == c'[..4 * k][..4 * (k - 1)];
      RunPrefix(trig, regs, c, c', k - 1);
      var s := 4 * (k - 1);
      assert c[s] == c[..4 * k][s] && c[s + 1] == c[..4 * k][s + 1];
      assert c[s + 2] == c[..4 * k][s + 2] && c[s + 3] == c[..4 * k][s + 3];
      assert InstructionAt(c, k - 1) == InstructionAt(c', k - 1);
    }
  }

  /** Trailing fields beyond the last whole instruction are ignored. */
  lemma TrailingFieldsIgnored(trig: Trig, c: Chromosome, consts: seq<real>, numVarReg: nat,
                              data: seq<seq<real>>, times: seq<real>, dataDim: nat, currDim: int)
    requires DecodeInput(c, consts, numVarReg, data, times, dataDim, currDim)
    ensures var whole := c[..4 * NumInstructions(c)];
      DecodeInput(whole, consts, numVarReg, data, times, dataDim, currDim) &&
      DecodeSpec(trig, c, consts, numVarReg, data, times, dataDim, currDim) ==
      DecodeSpec(trig, whole, consts, numVarReg, data, times, dataDim, currDim)
  {
    var n := NumInstructions(c);
    var whole := c[..4 * n];
    var w := Width(numVarReg, |consts|, dataDim);
    assert NumInstructions(whole) == n;
    assert forall k :: 0 <= k < n ==> InstructionAt(whole, k) == InstructionAt(c, k);
    assert whole[..4 * n] == c[..4 * n];
    forall r | 0 <= r < |data|
      ensures Registers(trig, c, consts, numVarReg, data[r], times[r], dataDim) ==
              Registers(trig, whole, consts, numVarReg, data[r], times[r], dataDim)
    {
      RunPrefix(trig, Seed(0.0, consts, numVarReg, data[r], times[r], dataDim), c, whole, n);
    }
  }

  /** Running a program whose length is a whole number of instructions and
      then one more instruction is one `Step` more. */
  lemma {:induction false} RunAppendInstruction(trig: Trig, regs: seq<real>, c: Chromosome, ins: Instruction)
    requires |c| % 4 == 0 && Fits(c, |regs|) && InRange(ins, |regs|)
    ensures var c' := c + [ins.op, ins.dest, ins.src1, ins.src2];
      NumInstructions(c') == NumInstructions(c) + 1 && Fits(c', |regs|) &&
      Run(trig, regs, c', NumInstructions(c')) == Step(trig, Run(trig, regs, c, NumInstructions(c)), ins)
  {
    var c' := c + [ins.op, ins.dest, ins.src1, ins.src2];
    var n := NumInstructions(c);
    assert NumInstructions(c') == n + 1;
    assert forall k :: 0 <= k < n ==> InstructionAt(c', k) == InstructionAt(c, k);
    assert InstructionAt(c', n) == ins;
    assert c'[..4 * n] == c[..4 * n];
    RunPrefix(trig, regs, c', c, n);
  }

  /** The effect of the last instruction of a program, as decode sees it:
      it changes only column `dest`; DIV writes the sentinel in a row whose
      divisor is zero and the quotient elsewhere; an opcode outside 0..6
      changes no register. */
  lemma LastInstruction(trig: Trig, c: Chromosome, ins: Instruction, consts: seq<real>,
                        numVarReg: nat, xs: seq<real>, t: real, dataDim: nat)
    requires |c| % 4 == 0 && dataDim <= |xs|
    requires Fits(c, Width(numVarReg, |consts|, dataDim)) && InRange(ins, Width(numVarReg, |consts|, dataDim))
    ensures var c' := c + [ins.op, ins.dest, ins.src1, ins.src2];
      var w := Width(numVarReg, |consts|, dataDim);
      Fits(c', w) &&
      var before := Registers(trig, c, consts, numVarReg, xs, t, dataDim);
      var after := Registers(trig, c', consts, numVarReg, xs, t, dataDim);
      (forall col :: 0 <= col < w && col != Col(ins.dest, w) ==> after[col] == before[col]) &&
      (ins.op == 3 && before[Col(ins.src2, w)] == 0.0 ==> after[Col(ins.dest, w)] == Sentinel) &&
      (ins.op == 3 && before[Col(ins.src2, w)] != 0.0 ==>
        after[Col(ins.dest, w)] == before[Col(ins.src1, w)] / before[Col(ins.src2, w)]) &&
      (!KnownOp(ins.op) ==> after == before)
  {
    RunAppendInstruction(trig, Seed(0.0, consts, numVarReg, xs, t, dataDim), c, ins);
  }

  function Reverse<V>(s: seq<V>): (r: seq<V>)
    ensures |r| == |s| && forall i :: 0 <= i < |s| ==> r[i] == s[|s| - 1 - i]
  {
    if s == [] then [] else Reverse(s[1..]) + [s[0]]
  }

  /** After `i` passes of the seeding loop, as long as the two groups of
      written columns do not meet: data value `j` sits in column `j` and in
      column `w - 2 - j`; every other column keeps its initial value. */
  lemma {:induction false} WriteDataAt<V>(regs: seq<V>, xs: seq<V>, i: nat, col: nat)
    requires i <= |xs| && 2 * i < |regs| && col < |regs|
    ensures WriteData(regs, xs, i)[col] ==
      if col < i then xs[col]
      else if |regs| - 1 - i <= col < |regs| - 1 then xs[|regs| - 2 - col]
      else regs[col]
  {
    if i > 0 {
      WriteDataAt(regs, xs, i - 1, col);
    }
  }

  /** With `data_dim < num_var_reg` the seeded row is
      x_0 .. x_{d-1}, t, zeros, the literals, x_{d-1} .. x_0, t. */
  lemma SeedLayout<V>(zero: V, consts: seq<V>, numVarReg: nat, xs: seq<V>, t: V, dataDim: nat)
    requires dataDim <= |xs| && dataDim < numVarReg
    ensures Seed(zero, consts, numVarReg, xs, t, dataDim) ==
      xs[..dataDim] + [t] + Repeat(zero, numVarReg - dataDim - 1) + consts + Reverse(xs[..dataDim]) + [t]
  {
    var base := BaseRegisters(zero, consts, numVarReg, dataDim);
    var w := |base|;
    var s := Seed(zero, consts, numVarReg, xs, t, dataDim);
    var layout := xs[..dataDim] + [t] + Repeat(zero, numVarReg - dataDim - 1) + consts + Reverse(xs[..dataDim]) + [t];
    assert |layout| == w;
    forall col | 0 <= col < w
      ensures s[col] == layout[col]
    {
      WriteDataAt(base, xs, dataDim, col);
      if numVarReg + |consts| <= col < w - 1 {
        assert layout[col] == Reverse(xs[..dataDim])[col - numVarReg - |consts|];
      } else if dataDim < col < numVarReg + |consts| {
        assert layout[col] == base[col];
      }
    }
  }

  /** With no whole instruction, decode returns the target data column, and
      reading its mirror column gives the same result. */
  lemma DecodeNoInstructions(trig: Trig, c: Chromosome, consts: seq<real>, numVarReg: nat,
                             data: seq<seq<real>>, times: seq<real>, dataDim: nat, currDim: nat)
    requires NumInstructions(c) == 0 && currDim < dataDim < numVarReg
    requires 1 <= |data| && |times| == |data| && forall r :: 0 <= r < |data| ==> dataDim <= |data[r]|
    ensures DecodeInput(c, consts, numVarReg, data, times, dataDim, currDim)
    ensures DecodeInput(c, consts, numVarReg, data, times, dataDim, -(currDim as int) - 2)
    ensures DecodeSpec(trig, c, consts, numVarReg, data, times, dataDim, currDim) == DataColumn(data, currDim)
    ensures DecodeSpec(trig, c, consts, numVarReg, data, times, dataDim, -(currDim as int) - 2) == DataColumn(data, currDim)
  {
    var w := Width(numVarReg, |consts|, dataDim);
    forall r | 0 <= r < |data|
      ensures Registers(trig, c, consts, numVarReg, data[r], times[r], dataDim)[currDim] == data[r][currDim]
      ensures Registers(trig, c, consts, numVarReg, data[r], times[r], dataDim)[w - currDim - 2] == data[r][currDim]
    {
      var base := BaseRegisters(0.0, consts, numVarReg, dataDim);
      WriteDataAt(base, data[r], dataDim, currDim);
      WriteDataAt(base, data[r], dataDim, w - currDim - 2);
    }
  }

  /** The literal register `num_var_reg + j` still holds its literal after
      seeding when `data_dim < num_var_reg`. */
  lemma SeedLiteral(consts: seq<real>, numVarReg: nat, xs: seq<real>, t: real, dataDim: nat, j: nat)
    requires dataDim <= |xs| && dataDim < numVarReg && j < |consts|
    ensures Seed(0.0, consts, numVarReg, xs, t, dataDim)[numVarReg + j] == consts[j]
  {
    WriteDataAt(BaseRegisters(0.0, consts, numVarReg, dataDim), xs, dataDim, numVarReg + j);
  }

  /** `ADD(dest 0, x_0, literal 0)` decoded for dimension 0 returns data
      column 0 unchanged, so it fits a target equal to that column exactly. */
  lemma AddZeroLiteral(trig: Trig, consts: seq<real>, numVarReg: nat, data: seq<seq<real>>,
                       times: seq<real>, dataDim: nat, j: nat)
    requires 0 < dataDim < numVarReg && j < |consts| && consts[j] == 0.0
    requires 1 <= |data| && |times| == |data| && forall r :: 0 <= r < |data| ==> dataDim <= |data[r]|
    ensures var c := [0, 0, 0, numVarReg + j];
      DecodeInput(c, consts, numVarReg, data, times, dataDim, 0) &&
      DecodeSpec(trig, c, consts, numVarReg, data, times, dataDim, 0) == DataColumn(data, 0)
  {
    var c := [0, 0, 0, numVarReg + j];
    var ins := Instruction(0, 0, 0, numVarReg + j);
    assert c == [] + [ins.op, ins.dest, ins.src1, ins.src2];
    assert InstructionAt(c, 0) == ins;
    forall r | 0 <= r < |data|
      ensures Registers(trig, c, consts, numVarReg, data[r], times[r], dataDim)[0] == data[r][0]
    {
      var seed := Seed(0.0, consts, numVarReg, data[r], times[r], dataDim);
      RunAppendInstruction(trig, seed, [], ins);
      WriteDataAt(BaseRegisters(0.0, consts, numVarReg, dataDim), data[r], dataDim, 0);
      SeedLiteral(consts, numVarReg, data[r], times[r], dataDim, j);
    }
  }

  /** `DIV(dest, any operand, literal 0)` decoded for the dimension `dest`
      gives the sentinel in every row, whatever the first operand holds. */
  lemma DivZeroLiteral(trig: Trig, consts: seq<real>, numVarReg: nat, data: seq<seq<real>>,
                       times: seq<real>, dataDim: nat, dest: nat, src1: int, j: nat)
    requires dataDim < numVarReg && dest < numVarReg && j < |consts| && consts[j] == 0.0
    requires -(Width(numVarReg, |consts|, dataDim) as int) <= src1 < Width(numVarReg, |consts|, dataDim)
    requires 1 <= |data| && |times| == |data| && forall r :: 0 <= r < |data| ==> dataDim <= |data[r]|
    ensures var c := [3, dest, src1, numVarReg + j];
      DecodeInput(c, consts, numVarReg, data, times, dataDim, dest) &&
      DecodeSpec(trig, c, consts, numVarReg, data, times, dataDim, dest) == Repeat(Sentinel, |data|)
  {
    var c := [3, dest, src1, numVarReg + j];
    var ins := Instruction(3, dest, src1, numVarReg + j);
    assert c == [] + [ins.op, ins.dest, ins.src1, ins.src2];
    assert InstructionAt(c, 0) == ins;
    forall r | 0 <= r < |data|
      ensures Registers(trig, c, consts, numVarReg, data[r], times[r], dataDim)[dest] == Sentinel
    {
      var seed := Seed(0.0, consts, numVarReg, data[r], times[r], dataDim);
      RunAppendInstruction(trig, seed, [], ins);
      SeedLiteral(consts, numVarReg, data[r], times[r], dataDim, j);
    }
  }
}
