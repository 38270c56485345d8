/** The values a core file is assembled from (x86_64 sizes). */
module Inputs {
  import opened Bytes

  const EHDR: nat := 64
  const PHDR: nat := 56
  const NHDR: nat := 12
  const MAX_MAPPINGS: nat := 4096
  const FNAME_MAX: nat := 256

  type usize = n: nat | n < U64
  type u32 = n: nat | n < U32
  type i32 = n: int | -0x8000_0000 <= n < 0x8000_0000

  /** Opaque fixed-size payloads. */
  type Prpsinfo = s: seq<byte> | |s| == 136 witness Zeros(136)
  type Regs = s: seq<byte> | |s| == 216 witness Zeros(216)
  type FpRegs = s: seq<byte> | |s| == 512 witness Zeros(512)
  type CoreUser = s: seq<byte> | |s| == 928 witness Zeros(928)

  /** A stored path: shorter than the 256-byte name buffer, so that its NUL fits. */
  type Name = s: seq<byte> | |s| < FNAME_MAX witness []

  datatype ThreadState = ThreadState(pid: i32, regs: Regs, fpregs: FpRegs)

  datatype Auxv = Auxv(aType: usize, aVal: usize)

  /** A note as a reader sees it; `name` excludes the NUL. */
  datatype Note = Note(name: seq<byte>, ntype: u32, desc: seq<byte>)

  datatype Mapping = Mapping(
    start: usize, end: usize, offset: usize, flags: nat, isAnon: bool, writeSize: usize,
    dontdump: bool, hasAnonPages: bool, isDevice: bool, name: Name)

  datatype CoreInputs = CoreInputs(
    prpsinfo: Prpsinfo, threads: seq<ThreadState>, mainThread: nat, auxv: seq<Auxv>,
    mappings: seq<Mapping>, pagesize: usize, notes: seq<Note>, user: Option<CoreUser>)
}
