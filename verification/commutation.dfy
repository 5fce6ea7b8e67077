/** The gate-commutation pass as it stands: it copies every instruction, in
    order and unchanged, into a fresh circuit; swaps are singled out but left alone. */
module Commutation {
  import opened Circuits

  /** The pass's copy loop. */
  method GateCommutation(ops: seq<Instr>) returns (out: seq<Instr>)
    ensures out == ops
  {
    out := [];
    for i := 0 to |ops|
      invariant out == ops[..i]
    {
      var op := ops[i];
      if op.name == "swap" {
        // a swap is recognised and, for now, copied like every other instruction
      }
      out := out + [op];
    }
    assert ops[..|ops|] == ops;
  }
}
