/** Instruction identity (opcode.go): section 14 of the Z-Machine Standards Document 1.1. */
module Opcodes {
  import opened Words

  datatype Count = Op0 | Op1 | Op2 | OpVar

  datatype Opcode = Opcode(count: Count, number: byte)

  /** The first version that defines an opcode number (0: none does) and what follows its
      operands. */
  datatype Info = Info(since: byte, store: bool, branch: bool, text: bool) {
    predicate DefinedInV3() { 1 <= since <= 3 }
  }

  const UNDEFINED := Info(0, false, false, false)

  function InfoOf(op: Opcode): Info {
    match op.count
    case Op0 => Info0(op.number % 16)
    case Op1 => Info1(op.number % 16)
    case Op2 => Info2(op.number % 32)
    case OpVar => InfoVar(op.number % 32)
  }

  function Info0(n: nat): Info {
    if n <= 13 then
      Info(if n >= 12 then 3 else 1, false, n == 5 || n == 6 || n == 13, n == 2 || n == 3)
    else Info(5, false, n == 15, false)
  }

  function Info1(n: nat): Info {
    Info(if n == 8 then 4 else 1, n in {1, 2, 3, 4, 8, 14, 15}, n <= 2, false)
  }

  function Info2(n: nat): Info {
    if n == 0 || n > 28 then UNDEFINED
    else if n >= 25 then Info(if n == 25 then 4 else 5, n == 25, false, false)
    else Info(1, n == 8 || n == 9 || n >= 15, n <= 7 || n == 10, false)
  }

  function InfoVar(n: nat): Info {
    if n <= 9 then Info(1, n == 0 || n == 7, false, false)
    else if n <= 11 || 19 <= n <= 21 then Info(3, false, false, false)
    else if n <= 23 then Info(4, n == 12 || n == 22 || n == 23, n == 23, false)
    else Info(5, n == 24, n == 31, false)
  }

  const JE := Opcode(Op2, 1)
  const JL := Opcode(Op2, 2)
  const JG := Opcode(Op2, 3)
  const DEC_CHK := Opcode(Op2, 4)
  const INC_CHK := Opcode(Op2, 5)
  const JIN := Opcode(Op2, 6)
  const TEST := Opcode(Op2, 7)
  const OR := Opcode(Op2, 8)
  const AND := Opcode(Op2, 9)
  const TEST_ATTR := Opcode(Op2, 10)
  const SET_ATTR := Opcode(Op2, 11)
  const CLEAR_ATTR := Opcode(Op2, 12)
  const STORE := Opcode(Op2, 13)
  const INSERT_OBJ := Opcode(Op2, 14)
  const LOADW := Opcode(Op2, 15)
  const LOADB := Opcode(Op2, 16)
  const GET_PROP := Opcode(Op2, 17)
  const GET_PROP_ADDR := Opcode(Op2, 18)
  const GET_NEXT_PROP := Opcode(Op2, 19)
  const ADD := Opcode(Op2, 20)
  const SUB := Opcode(Op2, 21)
  const MUL := Opcode(Op2, 22)
  const DIV := Opcode(Op2, 23)
  const MOD := Opcode(Op2, 24)

  const JZ := Opcode(Op1, 0)
  const GET_SIBLING := Opcode(Op1, 1)
  const GET_CHILD := Opcode(Op1, 2)
  const GET_PARENT := Opcode(Op1, 3)
  const GET_PROP_LEN := Opcode(Op1, 4)
  const INC := Opcode(Op1, 5)
  const DEC := Opcode(Op1, 6)
  const PRINT_ADDR := Opcode(Op1, 7)
  const REMOVE_OBJ := Opcode(Op1, 9)
  const PRINT_OBJ := Opcode(Op1, 10)
  const RET := Opcode(Op1, 11)
  const JUMP := Opcode(Op1, 12)
  const PRINT_PADDR := Opcode(Op1, 13)
  const LOAD := Opcode(Op1, 14)
  const NOT := Opcode(Op1, 15)

  const RTRUE := Opcode(Op0, 0)
  const RFALSE := Opcode(Op0, 1)
  const PRINT := Opcode(Op0, 2)
  const PRINT_RET := Opcode(Op0, 3)
  const NOP := Opcode(Op0, 4)
  const SAVE := Opcode(Op0, 5)
  const RESTORE := Opcode(Op0, 6)
  const RESTART := Opcode(Op0, 7)
  const RET_POPPED := Opcode(Op0, 8)
  const POP := Opcode(Op0, 9)
  const QUIT := Opcode(Op0, 10)
  const NEW_LINE := Opcode(Op0, 11)
  const SHOW_STATUS := Opcode(Op0, 12)
  const VERIFY := Opcode(Op0, 13)

  const CALL := Opcode(OpVar, 0)
  const STOREW := Opcode(OpVar, 1)
  const STOREB := Opcode(OpVar, 2)
  const PUT_PROP := Opcode(OpVar, 3)
  const SREAD := Opcode(OpVar, 4)
  const PRINT_CHAR := Opcode(OpVar, 5)
  const PRINT_NUM := Opcode(OpVar, 6)
  const RANDOM := Opcode(OpVar, 7)
  const PUSH := Opcode(OpVar, 8)
  const PULL := Opcode(OpVar, 9)
  const SPLIT_WINDOW := Opcode(OpVar, 10)
  const SET_WINDOW := Opcode(OpVar, 11)
  const OUTPUT_STREAM := Opcode(OpVar, 19)
  const INPUT_STREAM := Opcode(OpVar, 20)
  const SOUND_EFFECT := Opcode(OpVar, 21)
}
