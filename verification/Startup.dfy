/** Reset-time memory initialisation: the three pointer loops of `rust_start` over a word-addressed SRAM. */
module Startup {
  import opened Word32

  const ORIGIN: int := 0x2000_0000
  const WORD: int := 4
  const WATERMARK: int := 0xa5a5_a5a5
  const DIAGNOSTIC_MAGIC: int := 0x444c_5253
  const STAGE_TRIM: int := 1
  const DIAGNOSTIC_WORDS: int := 7

  /** The linker's symbols, as byte addresses: emergency stack, main stack, .data, .bss, diagnostic record. */
  datatype Layout = Layout(
    faultStackTop: nat,
    stackBottom: nat, stackTop: nat,
    sdata: nat, edata: nat,
    sbss: nat, ebss: nat,
    diagnostic: nat)

  predicate Aligned(address: int) {
    address % WORD == 0
  }

  /** Word-aligned and in link order, within an SRAM of `words` words. */
  predicate InOrder(l: Layout, words: nat) {
    && Aligned(l.stackBottom) && Aligned(l.stackTop) && Aligned(l.sdata) && Aligned(l.edata)
    && Aligned(l.sbss) && Aligned(l.ebss) && Aligned(l.diagnostic)
    && ORIGIN <= l.faultStackTop <= l.stackBottom <= l.stackTop <= l.sdata <= l.edata <= l.sbss <= l.ebss
    && l.ebss <= l.diagnostic && l.diagnostic + DIAGNOSTIC_WORDS * WORD <= ORIGIN + words * WORD
  }

  function Address(k: int): int {
    ORIGIN + k * WORD
  }

  /** The SRAM word at an address. */
  function Index(address: int): int {
    (address - ORIGIN) / WORD
  }

  /** What each word of SRAM must hold after initialisation, by the region its address falls in. */
  function Initialised(l: Layout, sp: nat, flash: seq<u32>, before: seq<u32>, k: nat): u32
    requires InOrder(l, |before|) && k < |before|
    requires |flash| * WORD == l.edata - l.sdata
  {
    var a := Address(k);
    if l.sdata <= a < l.edata then flash[k - Index(l.sdata)]
    else if l.sbss <= a < l.ebss then 0
    else if l.stackBottom <= a < sp then WATERMARK
    else before[k]
  }

  /** The diagnostic record's words after the boot writes: magic, stage, empty details. */
  function DiagnosticWord(n: nat): u32 {
    if n == 0 then DIAGNOSTIC_MAGIC else if n == 1 then STAGE_TRIM else 0
  }

  lemma IndexOfAddress(address: int)
    requires Aligned(address)
    ensures Address(Index(address)) == address && Index(address + WORD) == Index(address) + 1
  {}

  class Memory {
    const sram: array<u32>

    constructor (sram: array<u32>)
      ensures this.sram == sram
    {
      this.sram := sram;
    }

    method Write(address: int, value: u32)
      requires Aligned(address) && 0 <= Index(address) < sram.Length
      modifies sram
      ensures sram[..] == old(sram[..])[Index(address) := value]
    {
      sram[(address - ORIGIN) / WORD] := value;
    }

    method CopyData(l: Layout, flash: seq<u32>) returns (destination: nat)
      requires InOrder(l, sram.Length) && |flash| * WORD == l.edata - l.sdata
      modifies sram
      ensures destination == l.edata
      ensures forall k | 0 <= k < sram.Length ::
                sram[k] == if l.sdata <= Address(k) < l.edata then flash[k - Index(l.sdata)] else old(sram[k])
    {
      var source := 0;
      destination := l.sdata;
      while destination < l.edata
        invariant Aligned(destination) && l.sdata <= destination <= l.edata
        invariant destination == l.sdata + source * WORD
        invariant forall k | 0 <= k < sram.Length ::
                    sram[k] == if l.sdata <= Address(k) < destination then flash[k - Index(l.sdata)] else old(sram[k])
      {
        IndexOfAddress(destination);
        Write(destination, flash[source]);
        destination := destination + WORD;
        source := source + 1;
      }
    }

    /** Store one value from `start` up to `end`: the .bss and watermark loops. */
    method Fill(start: nat, end: nat, value: u32) returns (destination: nat)
      requires Aligned(start) && Aligned(end) && ORIGIN <= start <= end <= Address(sram.Length)
      modifies sram
      ensures destination == end
      ensures forall k | 0 <= k < sram.Length ::
                sram[k] == if start <= Address(k) < end then value else old(sram[k])
    {
      destination := start;
      while destination < end
        invariant Aligned(destination) && start <= destination <= end
        invariant forall k | 0 <= k < sram.Length ::
                    sram[k] == if start <= Address(k) < destination then value else old(sram[k])
      {
        IndexOfAddress(destination);
        Write(destination, value);
        destination := destination + WORD;
      }
    }

    /** Copy .data from its flash image, zero .bss, and mark the stack below the live stack pointer. */
    method InitialiseMemory(l: Layout, flash: seq<u32>, sp: nat)
      returns (dataEnd: nat, bssEnd: nat, markEnd: nat)
      requires InOrder(l, sram.Length) && |flash| * WORD == l.edata - l.sdata
      requires Aligned(sp) && l.stackBottom <= sp <= l.stackTop
      modifies sram
      ensures forall k | 0 <= k < sram.Length :: sram[k] == Initialised(l, sp, flash, old(sram[..]), k)
      ensures dataEnd == l.edata && bssEnd == l.ebss && markEnd == sp
      // The emergency stack, the live stack and all beyond .bss are left as found.
      ensures forall k | 0 <= k < sram.Length ::
                Address(k) < l.stackBottom || sp <= Address(k) < l.sdata || l.ebss <= Address(k) ==>
                  sram[k] == old(sram[k])
    {
      dataEnd := CopyData(l, flash);
      bssEnd := Fill(l.sbss, l.ebss, 0);
      markEnd := Fill(l.stackBottom, sp, WATERMARK);
    }

    /** The whole memory prologue of `rust_start`: nothing but the three regions and the record changes. */
    method Start(l: Layout, flash: seq<u32>, sp: nat)
      requires InOrder(l, sram.Length) && |flash| * WORD == l.edata - l.sdata
      requires Aligned(sp) && l.stackBottom <= sp <= l.stackTop
      modifies sram
      ensures forall k | 0 <= k < sram.Length ::
                sram[k] == if 0 <= k - Index(l.diagnostic) < DIAGNOSTIC_WORDS
                           then DiagnosticWord(k - Index(l.diagnostic))
                           else Initialised(l, sp, flash, old(sram[..]), k)
    {
      var _, _, _ := InitialiseMemory(l, flash, sp);
      var _ := Fill(l.diagnostic, l.diagnostic + DIAGNOSTIC_WORDS * WORD, 0);
      Write(l.diagnostic, DIAGNOSTIC_MAGIC);
      IndexOfAddress(l.diagnostic);
      Write(l.diagnostic + WORD, STAGE_TRIM);
    }
  }
}
