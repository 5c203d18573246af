/**
 * Direct-block addresses of the T_CS inode type (file.c, `cs_printinfo`):
 * a 32-bit slot holds a reference number in its upper 24 bits and a length
 * in its low 8 bits.
 */
module CsAddress {
  import opened Wrappers

  /** Inode type tags named by the labels of `cs_printinfo`. */
  const T_FILE := 2
  const T_CS := 4

  /** Mask of the length byte (`#define BIT 255`). */
  const BIT: bv32 := 255

  datatype CsAddr = CsAddr(num: bv32, length: bv32)

  /**
   * `num = addr >> 8`, `length = addr & BIT`. The two parts rebuild the slot
   * with 32-bit arithmetic that cannot wrap: `num` has at most 24 bits and
   * `length` at most 8.
   */
  function Decode(addr: bv32): (d: CsAddr)
    ensures d.length <= 255
    ensures d.num < 0x100_0000
    ensures d.num * 256 + d.length == addr
  {
    CsAddr(addr >> 8, addr & BIT)
  }

  /** `(num << 8) | length`, defined for a number of 24 bits and a length of 8 bits. */
  function Encode(num: bv32, length: bv32): (addr: bv32)
    requires num < 0x100_0000 && length <= 255
    ensures Decode(addr) == CsAddr(num, length)
  {
    (num << 8) | length
  }

  lemma EncodeDecoded(addr: bv32)
    ensures Encode(Decode(addr).num, Decode(addr).length) == addr
  {
  }

  lemma DecodeSample()
    ensures Decode(0x1203) == CsAddr(18, 3)
  {
  }

  /**
   * One line of the "DIRECT BLOCK INFO" listing: slot index and raw address,
   * and for a T_CS inode the decoded pair.
   */
  datatype BlockLine = BlockLine(slot: nat, raw: bv32, cs: Option<CsAddr>)

  /**
   * The direct-block loops of `cs_printinfo`: for a plain file or a T_CS
   * inode, one line per non-zero slot among the first `ndirect` (`NDIRECT`),
   * in slot order; the slots after them (the indirect block) are never
   * listed, and other types list nothing.
   */
  method DirectBlockInfo(itype: int, addrs: seq<bv32>, ndirect: nat) returns (lines: seq<BlockLine>)
    requires ndirect <= |addrs|
    ensures itype != T_FILE && itype != T_CS ==> lines == []
    ensures forall k :: 0 <= k < |lines| ==>
              && lines[k].slot < ndirect
              && lines[k].raw == addrs[lines[k].slot] != 0
              && lines[k].cs == (if itype == T_CS then Some(Decode(lines[k].raw)) else None)
    ensures forall k, k' :: 0 <= k < k' < |lines| ==> lines[k].slot < lines[k'].slot
    ensures itype == T_FILE || itype == T_CS ==>
              forall i :: 0 <= i < ndirect && addrs[i] != 0 ==>
                exists k :: 0 <= k < |lines| && lines[k].slot == i
  {
    lines := [];
    if itype == T_FILE || itype == T_CS {
      var i := 0;
      while i < ndirect
        invariant 0 <= i <= ndirect
        invariant forall k :: 0 <= k < |lines| ==>
                    && lines[k].slot < i
                    && lines[k].raw == addrs[lines[k].slot] != 0
                    && lines[k].cs == (if itype == T_CS then Some(Decode(lines[k].raw)) else None)
        invariant forall k, k' :: 0 <= k < k' < |lines| ==> lines[k].slot < lines[k'].slot
        invariant forall j :: 0 <= j < i && addrs[j] != 0 ==>
                    exists k :: 0 <= k < |lines| && lines[k].slot == j
      {
        var infoAddr := addrs[i];
        if infoAddr != 0 {
          var cs := if itype == T_CS then Some(Decode(infoAddr)) else None;
          ghost var before := lines;
          lines := lines + [BlockLine(i, infoAddr, cs)];
          assert lines[|before|].slot == i;
          forall j | 0 <= j < i && addrs[j] != 0
            ensures exists k :: 0 <= k < |lines| && lines[k].slot == j
          {
            var k :| 0 <= k < |before| && before[k].slot == j;
            assert lines[k] == before[k];
          }
        }
        i := i + 1;
      }
    }
  }
}
