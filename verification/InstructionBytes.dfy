/** The bit operations of the source on instruction bytes and reply-address sizes. The packet format states them as
    division, remainder and addition; the two agree. */
module InstructionBytes {
  import opened Packets

  function FlagBit(on: bool, flag: bv8): bv8 {
    if on then flag else 0
  }

  /** The instruction byte as the builders put it together, bit by bit. */
  function OrFlags(c: Config): bv8
    requires Buildable(c)
  {
    match c
    case Read(_, _, _, _, _, _, _, _, _, _) =>
      0x40 | 0x08 | FlagBit(c.increment, 0x04) | WordBits(|c.replyAddress|)
    case Write(_, _, _, _, _, _, _, _, _, _, _, _) =>
      0x40 | 0x20 | FlagBit(c.reply, 0x08) | FlagBit(c.verify, 0x10) | FlagBit(c.increment, 0x04)
      | WordBits(|c.replyAddress|)
    case ReadReply(_, _, _, _, _, _, _) =>
      0x08 | FlagBit(c.increment, 0x04)
    case WriteReply(_, _, _, _, _, _, _) =>
      0x20 | 0x08 | FlagBit(c.verify, 0x10) | FlagBit(c.increment, 0x04)
  }

  /** The number of reply-address words, `(((n - 1) & 0x0C) + 0x04) >> 2`, or nothing for an empty address. */
  function WordBits(n: nat): bv8
    requires n <= 12
  {
    if n == 0 then 0 else (((((n - 1) as bv8) & 0x0C) + 0x04) >> 2)
  }

  /** The builder's mask is the division and remainder of `MaskedSize`. */
  lemma MaskIsBits(n: nat)
    requires 0 < n <= 12
    ensures (((n - 1) as bv8) & 0x0C) as int + 0x04 == MaskedSize(n)
    ensures ((((n - 1) as bv8) & 0x0C) + 0x04) as int == MaskedSize(n)
    ensures WordBits(n) as int == MaskedSize(n) / 4 <= 3
  {
    if n <= 4 {
    } else if n <= 8 {
    } else {
    }
  }

  lemma CommandOr(reply: bool, verify: bool, increment: bool, words: bv8)
    requires words <= 3
    ensures (0x40 | 0x08 | FlagBit(increment, 0x04) | words) as int
      == COMMAND + REPLY + FlagIf(increment, INCREMENT) + words as int
    ensures (0x40 | 0x20 | FlagBit(reply, 0x08) | FlagBit(verify, 0x10) | FlagBit(increment, 0x04) | words) as int
      == COMMAND + WRITE + FlagIf(reply, REPLY) + FlagIf(verify, VERIFY) + FlagIf(increment, INCREMENT) + words as int
  {
  }

  lemma ReplyOr(verify: bool, increment: bool)
    ensures (0x08 | FlagBit(increment, 0x04)) as int == REPLY + FlagIf(increment, INCREMENT)
    ensures (0x20 | 0x08 | FlagBit(verify, 0x10) | FlagBit(increment, 0x04)) as int
      == WRITE + REPLY + FlagIf(verify, VERIFY) + FlagIf(increment, INCREMENT)
  {
  }

  /** ORing the flags together is adding them up. */
  lemma InstructionIsOr(c: Config)
    requires Buildable(c)
    ensures OrFlags(c) as int == Instruction(c)
  {
    if c.Read? || c.Write? {
      var n := |c.replyAddress|;
      if n > 0 {
        MaskIsBits(n);
        PaddingAgrees(n);
      }
      CommandOr(c.Write? && c.reply, c.Write? && c.verify, c.increment, WordBits(n));
    } else {
      ReplyOr(c.WriteReply? && c.verify, c.increment);
    }
  }

  /** `(instruction & flag) != 0` for the five flags, and `(instruction & 3) * 4`, as the parser tests them. */
  lemma FlagTests(x: bv8)
    ensures Has(x as int, COMMAND) <==> x & 0x40 != 0
    ensures Has(x as int, WRITE) <==> x & 0x20 != 0
    ensures Has(x as int, VERIFY) <==> x & 0x10 != 0
    ensures Has(x as int, REPLY) <==> x & 0x08 != 0
    ensures Has(x as int, INCREMENT) <==> x & 0x04 != 0
    ensures ReplyFieldSize(x as int) == (x & 3) as int * 4
  {
    CommandFlags(x);
    VerifyFlag(x);
    ReplyFlag(x);
    IncrementFlag(x);
    SizeBits(x);
  }

  lemma CommandFlags(x: bv8)
    ensures Has(x as int, COMMAND) <==> x & 0x40 != 0
    ensures Has(x as int, WRITE) <==> x & 0x20 != 0
  {
  }

  lemma VerifyFlag(x: bv8)
    ensures Has(x as int, VERIFY) <==> x & 0x10 != 0
  {
  }

  lemma ReplyFlag(x: bv8)
    ensures Has(x as int, REPLY) <==> x & 0x08 != 0
  {
  }

  lemma IncrementFlag(x: bv8)
    ensures Has(x as int, INCREMENT) <==> x & 0x04 != 0
  {
  }

  lemma SizeBits(x: bv8)
    ensures ReplyFieldSize(x as int) == (x & 3) as int * 4
  {
  }
}
