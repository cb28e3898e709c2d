/** Address layout and page-table words (include/mmu.h, include/pmap.h, include/error.h). */
module Mmu {

  const BY2PG: nat := 4096
  const PDMAP: nat := 0x40_0000
  const KSEG2: nat := 0xC000_0000
  const ULIM: nat := 0x8000_0000
  const UVPT: nat := ULIM - PDMAP
  const UPAGES: nat := UVPT - PDMAP
  const UENVS: nat := UPAGES - PDMAP
  const UTOP: nat := UENVS
  const USTACKTOP: nat := UTOP - 2 * BY2PG
  const UTEXT: nat := PDMAP
  const UCOW: nat := UTEXT - BY2PG
  const UTEMP: nat := UCOW - BY2PG

  /** Virtual page numbers below UTOP, and directory slots below PDX(UTOP). */
  const USER_PAGES: nat := 521216
  const USER_TABLES: nat := 509
  const ENTRIES: nat := 1024

  /** The addresses that the layout comes to. */
  lemma Layout()
    ensures UVPT == 0x7FC0_0000 && UPAGES == 0x7F80_0000 && UTOP == UENVS == 0x7F40_0000
    ensures USTACKTOP == 0x7F3F_E000 && UTEMP == 0x003F_E000 && UCOW == 0x003F_F000 && UTEXT == 0x0040_0000
    ensures VPN(USTACKTOP) == USER_PAGES - 2 && VPN(UTEMP) == ENTRIES - 2 && VPN(UCOW) == ENTRIES - 1
  {
  }

  lemma UserLimits()
    ensures USER_PAGES == VPN(UTOP) && USER_TABLES == PDX(UTOP) && USER_PAGES == USER_TABLES * ENTRIES
    ensures PDX(UVPT) == 511 && PDX(KSEG2) == 768
  {
  }

  function PDX(va: nat): nat { va / 0x40_0000 % 1024 }
  function PTX(va: nat): nat { va / 4096 % 1024 }
  function VPN(va: nat): nat { va / 4096 }

  /** The low twelve bits of a page-table word: the four flags the kernel and fork
      look at, and the remaining eight bits as a number. */
  datatype Perm = Perm(v: bool, d: bool, cow: bool, lib: bool, rest: nat)

  const NO_PERM := Perm(false, false, false, false, 0)

  /** A 32-bit memory word, split into its upper 20 and lower 12 bits. */
  datatype Word = Word(ppn: nat, perm: Perm)

  const ZERO := Word(0, NO_PERM)

  /** The contents of one physical page, as 1024 words. */
  type Frame = s: seq<Word> | |s| == ENTRIES witness seq(ENTRIES, _ => ZERO)

  function ZeroFrame(): Frame { seq(ENTRIES, _ => ZERO) }

  const E_BAD_ENV := 2
  const E_INVAL := 3
  const E_NO_MEM := 4
  const E_NO_FREE_ENV := 6
  const E_IPC_NOT_RECV := 7
  const E_NO_DISK := 8
  const E_NOT_FOUND := 10

  datatype Option<+T> = None | Some(value: T)

  /** No element occurs twice. */
  predicate Distinct(s: seq<nat>) {
    forall i, j | 0 <= i < j < |s| :: s[i] != s[j]
  }
}
