/**
 A disassembled image as the guard reads it (cli/vector_guard.py): instructions
 already decoded, each with the address the listing resolves for it, if any.
*/
module Listing {
  import opened Basics

  type Reg = string

  /** A 32-bit register or memory word. */
  const WORD: nat := 0x1_0000_0000

  datatype Insn =
    // Transfers of control, each with the address the listing names for it, if any.
    | Ret
    | Mret
    | Jump(target: Option<nat>)                     // j, tail
    | Call(rd: Reg, target: Option<nat>)            // jal, call; `rd` as printed first
    | CallReg(rd: Reg, target: Option<nat>)         // jalr
    | JumpReg(rs: Reg, target: Option<nat>)         // jr
    | Branch(target: Option<nat>)                   // every conditional branch but the next two
    | Bltu(a: Reg, b: Reg, target: Option<nat>)
    | Bgeu(a: Reg, b: Reg, target: Option<nat>)
    // What a jump table's dispatch is made of.
    | Lw(rd: Reg, off: int, base: Reg)
    | Add(rd: Reg, rs1: Reg, rs2: Reg)
    | Addi(rd: Reg, rs: Reg, imm: int, note: Option<nat>)  // `note`: the symbol address the listing adds
    | Mv(rd: Reg, rs: Reg)
    | Andi(rd: Reg, rs: Reg, imm: int)
    | ZextB(rd: Reg, rs: Reg)
    | ZextH(rd: Reg, rs: Reg)
    | Slli(rd: Reg, rs: Reg, shift: nat)
    | Li(rd: Reg, imm: int)
    | Lui(rd: Reg, page: nat)
    | Auipc(rd: Reg)
    | Sw(rs: Reg, off: int, base: Reg)
    | Store(rs: Reg, off: int, base: Reg)           // sb, sh
    // The floating-point unit.
    | Fsw(fs: Reg, off: int, base: Reg)
    | Flw(fd: Reg, off: int, base: Reg)
    | FcsrRead(rd: Reg)                             // frcsr, csrr, fscsr rd,rs and their like
    | FcsrWrite(rs: Reg, first: Reg)                // fscsr rs, csrw, csrrw zero; `first` as printed first
    | Fp(rd: Reg)                                   // any other F instruction, or access to an FP CSR
    // What the disassembler could not decode, and everything else.
    | Undecoded(size: nat, word: nat)
    | Other(rd: Reg)

  /** What resolved_target answers: nothing leaves the line, an address, or no address. */
  datatype Target = No | To(addr: nat) | Indirect

  function ResolvedTarget(i: Insn): Target {
    match i
    case Jump(t) => Resolve(t)
    case Call(_, t) => Resolve(t)
    case CallReg(_, t) => Resolve(t)
    case JumpReg(_, t) => Resolve(t)
    case Branch(t) => Resolve(t)
    case Bltu(_, _, t) => Resolve(t)
    case Bgeu(_, _, t) => Resolve(t)
    case _ => No
  }

  function Resolve(t: Option<nat>): Target {
    match t case None => Indirect case Some(a) => To(a)
  }

  /** The low seven bits of a four-byte instruction of the F extension. */
  const FP_OPCODES: set<nat> := {0x07, 0x27, 0x43, 0x47, 0x4B, 0x4F, 0x53}

  datatype Why = FpInstruction | FpOpcode | FourBytes | IndirectCall | IndirectJump | ACall | TailCall

  /** What fp_fault holds against an instruction. */
  function FpFault(i: Insn): Option<Why> {
    match i
    case Fsw(_, _, _) => Some(FpInstruction)
    case Flw(_, _, _) => Some(FpInstruction)
    case FcsrRead(_) => Some(FpInstruction)
    case FcsrWrite(_, _) => Some(FpInstruction)
    case Fp(_) => Some(FpInstruction)
    case Undecoded(size, word) =>
      if size != 4 then None
      else if word % 0x80 in FP_OPCODES then Some(FpOpcode)
      else Some(FourBytes)
    case _ => None
  }

  /** What the machine means by it: is an f-register or an FP CSR read or written? The
      disassembler decodes every two-byte F instruction, so none is left undecoded. */
  predicate TouchesFp(i: Insn) {
    || i.Fsw? || i.Flw? || i.FcsrRead? || i.FcsrWrite? || i.Fp?
    || (i.Undecoded? && i.size == 4 && i.word % 0x80 in FP_OPCODES)
  }

  predicate IsCall(i: Insn) { i.Call? || i.CallReg? }

  datatype Line = Line(addr: nat, insn: Insn)

  datatype Func = Func(end: nat, lines: seq<Line>)

  /** The words of the loaded image, by address. */
  type Image = map<nat, nat>
}
