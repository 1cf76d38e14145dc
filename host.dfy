/** The view of one transaction that the CKB host gives a running type script.

    The validators read everything through syscalls (load_script, load_cell_*, load_input,
    load_witness_args, QueryIter); here that view is one immutable value, and every host
    query becomes a pure function over it. */
module Host {

  type u8 = x: int | 0 <= x < 0x100
  type u16 = x: int | 0 <= x < 0x1_0000
  type u32 = x: int | 0 <= x < 0x1_0000_0000
  type u64 = x: int | 0 <= x < 0x1_0000_0000_0000_0000

  const U64_LIMIT: int := 0x1_0000_0000_0000_0000

  type Bytes = seq<u8>

  datatype Option<+T> = None | Some(value: T)

  /** A blake2b-256 result: always 32 bytes. */
  type Digest = d: Bytes | |d| == 32 witness seq(32, i => 0)

  /** A CKB script (lock or type), compared structurally as its packed bytes are. */
  datatype Script = Script(codeHash: Bytes, hashType: u8, args: Bytes)

  /** A cell of the Input, Output or CellDep group.
      `data` is None where the host fails to load the cell's data. */
  datatype Cell = Cell(
    capacity: u64,
    occupiedCapacity: u64,
    lock: Script,
    typeScript: Option<Script>,
    data: Option<Bytes>)

  /** The part of a witness the validators look at: its `lock` field. */
  datatype WitnessArgs = WitnessArgs(lock: Option<Bytes>)

  /** A previous output: its transaction hash and the packed bytes of its index. */
  datatype OutPoint = OutPoint(txHash: Bytes, index: Bytes)

  /** One transaction as the host shows it.
      `witnesses[i]` is the witness of input i; None, or an index past the end,
      means load_witness_args fails there.
      `firstInput` is the previous output of input 0, None when the transaction has no input. */
  datatype Transaction = Transaction(
    inputs: seq<Cell>,
    outputs: seq<Cell>,
    cellDeps: seq<Cell>,
    witnesses: seq<Option<WitnessArgs>>,
    firstInput: Option<OutPoint>)
}

/** ckb-std's syscall error. */
module SysErrors {
  datatype SysError =
    | IndexOutOfBound
    | ItemMissing
    | LengthNotEnough(size: nat)
    | Encoding
    | Unknown(code: nat)
}
