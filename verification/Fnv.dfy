/**
  The 64-bit FNV-1a fold by which the kernel-side parsers recognise field names.
 */
module Fnv {
  import opened Bytes

  datatype Hash = Hash(bits: bv64)

  const FNV_OFFSET := Hash(0xcbf29ce484222325)
  const FNV_PRIME: bv64 := 0x100000001b3

  const TRACEPARENT_HASH := Hash(0xa22e83ed935e6e5e)
  const TRACESTATE_HASH := Hash(0x958c9556effaa193)
  const UPGRADE_HASH := Hash(0x7f7d77d7c2a03db7)
  const CONNECTION_HASH := Hash(0xc7f597ea639b1b59)

  function Bits(b: Byte): bv64 { b as bv64 }

  function FnvStep(h: Hash, b: Byte): Hash { Hash((h.bits ^ Bits(b)) * FNV_PRIME) }

  function FnvFold(s: ByteSeq): Hash
  {
    if s == [] then FNV_OFFSET else FnvStep(FnvFold(s[..|s| - 1]), s[|s| - 1])
  }

  lemma {:induction false} HashAppend(s: ByteSeq, b: Byte)
    ensures FnvFold(s + [b]) == FnvStep(FnvFold(s), b)
  {
    hide FnvStep;
    assert (s + [b])[..|s|] == s;
  }

  lemma {:induction false} HashPrefix(s: ByteSeq, k: nat)
    requires k < |s|
    ensures FnvFold(s[..k + 1]) == FnvStep(FnvFold(s[..k]), s[k])
  {
    hide FnvStep, FnvFold;
    assert s[..k + 1] == s[..k] + [s[k]];
    HashAppend(s[..k], s[k]);
  }

  // ----- the hash constants are the folds of the lowercase names -----

  lemma {:induction false} HashEmpty()
    ensures FnvFold([]) == FNV_OFFSET
  {}

  // The letters of the four names, as 64-bit words
  lemma {:induction false} Letters()
    ensures Bits(97) == 97 && Bits(99) == 99 && Bits(100) == 100 && Bits(101) == 101 && Bits(103) == 103 && Bits(105) == 105
    ensures Bits(110) == 110 && Bits(111) == 111 && Bits(112) == 112 && Bits(114) == 114 && Bits(115) == 115 && Bits(116) == 116 && Bits(117) == 117
  {}

  lemma {:induction false} TraceparentSteps()
    ensures FnvStep(Hash(0xcbf29ce484222325), 116) == Hash(0xaf63e94c860202a3)
    ensures FnvStep(Hash(0xaf63e94c860202a3), 114) == Hash(0x8c83e07b56ac923)
    ensures FnvStep(Hash(0x8c83e07b56ac923), 97) == Hash(0x570aa9194473fb26)
    ensures FnvStep(Hash(0x570aa9194473fb26), 99) == Hash(0x5b189aef5113f63f)
    ensures FnvStep(Hash(0x5b189aef5113f63f), 101) == Hash(0xdec59ea6c4eb9aee)
    ensures FnvStep(Hash(0xdec59ea6c4eb9aee), 112) == Hash(0x756733609c57ba7a)
    ensures FnvStep(Hash(0x756733609c57ba7a), 97) == Hash(0xd6166829a9113be1)
    ensures FnvStep(Hash(0xd6166829a9113be1), 114) == Hash(0xd94e91ca48483ac9)
    ensures FnvStep(Hash(0xd94e91ca48483ac9), 101) == Hash(0x88bc66b8d2bbb244)
    ensures FnvStep(Hash(0x88bc66b8d2bbb244), 110) == Hash(0x13d4b60e14efbd5e)
    ensures FnvStep(Hash(0x13d4b60e14efbd5e), 116) == Hash(0xa22e83ed935e6e5e)
  {
    hide Bits;
    Letters();
  }

  lemma {:induction false} TraceparentHash()
    ensures FnvFold(TRACEPARENT) == TRACEPARENT_HASH
  {
    hide FnvFold, FnvStep;
    TraceparentSteps();
    HashEmpty();
    assert TRACEPARENT[..0] == [] && TRACEPARENT[..11] == TRACEPARENT;
    HashPrefix(TRACEPARENT, 0);
    HashPrefix(TRACEPARENT, 1);
    HashPrefix(TRACEPARENT, 2);
    HashPrefix(TRACEPARENT, 3);
    HashPrefix(TRACEPARENT, 4);
    HashPrefix(TRACEPARENT, 5);
    HashPrefix(TRACEPARENT, 6);
    HashPrefix(TRACEPARENT, 7);
    HashPrefix(TRACEPARENT, 8);
    HashPrefix(TRACEPARENT, 9);
    HashPrefix(TRACEPARENT, 10);
  }

  lemma {:induction false} TracestateSteps()
    ensures FnvStep(Hash(0xcbf29ce484222325), 116) == Hash(0xaf63e94c860202a3)
    ensures FnvStep(Hash(0xaf63e94c860202a3), 114) == Hash(0x8c83e07b56ac923)
    ensures FnvStep(Hash(0x8c83e07b56ac923), 97) == Hash(0x570aa9194473fb26)
    ensures FnvStep(Hash(0x570aa9194473fb26), 99) == Hash(0x5b189aef5113f63f)
    ensures FnvStep(Hash(0x5b189aef5113f63f), 101) == Hash(0xdec59ea6c4eb9aee)
    ensures FnvStep(Hash(0xdec59ea6c4eb9aee), 115) == Hash(0x756732609c57b8c7)
    ensures FnvStep(Hash(0x756732609c57b8c7), 116) == Hash(0xd6134d29a90ed829)
    ensures FnvStep(Hash(0xd6134d29a90ed829), 97) == Hash(0xd1a465ca44398258)
    ensures FnvStep(Hash(0xd1a465ca44398258), 116) == Hash(0x73db22b1edb830c4)
    ensures FnvStep(Hash(0x73db22b1edb830c4), 101) == Hash(0x958c9556effaa193)
  {
    hide Bits;
    Letters();
  }

  lemma {:induction false} TracestateHash()
    ensures FnvFold(TRACESTATE) == TRACESTATE_HASH
  {
    hide FnvFold, FnvStep;
    TracestateSteps();
    HashEmpty();
    assert TRACESTATE[..0] == [] && TRACESTATE[..10] == TRACESTATE;
    HashPrefix(TRACESTATE, 0);
    HashPrefix(TRACESTATE, 1);
    HashPrefix(TRACESTATE, 2);
    HashPrefix(TRACESTATE, 3);
    HashPrefix(TRACESTATE, 4);
    HashPrefix(TRACESTATE, 5);
    HashPrefix(TRACESTATE, 6);
    HashPrefix(TRACESTATE, 7);
    HashPrefix(TRACESTATE, 8);
    HashPrefix(TRACESTATE, 9);
  }

  lemma {:induction false} UpgradeSteps()
    ensures FnvStep(Hash(0xcbf29ce484222325), 117) == Hash(0xaf63e84c860200f0)
    ensures FnvStep(Hash(0xaf63e84c860200f0), 112) == Hash(0x8c43a07b566d980)
    ensures FnvStep(Hash(0x8c43a07b566d980), 103) == Hash(0x4c4882193dc44385)
    ensures FnvStep(Hash(0x4c4882193dc44385), 114) == Hash(0x637907e3f47f7cb5)
    ensures FnvStep(Hash(0x637907e3f47f7cb5), 97) == Hash(0x86253c5874a11c3c)
    ensures FnvStep(Hash(0x86253c5874a11c3c), 100) == Hash(0x9261e24e2dc32988)
    ensures FnvStep(Hash(0x9261e24e2dc32988), 101) == Hash(0x7f7d77d7c2a03db7)
  {
    hide Bits;
    Letters();
  }

  lemma {:induction false} UpgradeHash()
    ensures FnvFold(UPGRADE) == UPGRADE_HASH
  {
    hide FnvFold, FnvStep;
    UpgradeSteps();
    HashEmpty();
    assert UPGRADE[..0] == [] && UPGRADE[..7] == UPGRADE;
    HashPrefix(UPGRADE, 0);
    HashPrefix(UPGRADE, 1);
    HashPrefix(UPGRADE, 2);
    HashPrefix(UPGRADE, 3);
    HashPrefix(UPGRADE, 4);
    HashPrefix(UPGRADE, 5);
    HashPrefix(UPGRADE, 6);
  }

  lemma {:induction false} ConnectionSteps()
    ensures FnvStep(Hash(0xcbf29ce484222325), 99) == Hash(0xaf63de4c8601eff2)
    ensures FnvStep(Hash(0xaf63de4c8601eff2), 111) == Hash(0x8a25907b54a27c7)
    ensures FnvStep(Hash(0x8a25907b54a27c7), 110) == Hash(0xf604f1190d01642b)
    ensures FnvStep(Hash(0xf604f1190d01642b), 110) == Hash(0xbc9f291195d613f)
    ensures FnvStep(Hash(0xbc9f291195d613f), 101) == Hash(0x6588868e19ac6bee)
    ensures FnvStep(Hash(0x6588868e19ac6bee), 99) == Hash(0x336830759ffac097)
    ensures FnvStep(Hash(0x336830759ffac097), 116) == Hash(0x54cb3aded715c1b9)
    ensures FnvStep(Hash(0x54cb3aded715c1b9), 105) == Hash(0x2b16d8a779f85470)
    ensures FnvStep(Hash(0x2b16d8a779f85470), 111) == Hash(0x3026439440f6f0ad)
    ensures FnvStep(Hash(0x3026439440f6f0ad), 110) == Hash(0xc7f597ea639b1b59)
  {
    hide Bits;
    Letters();
  }

  lemma {:induction false} ConnectionHash()
    ensures FnvFold(CONNECTION) == CONNECTION_HASH
  {
    hide FnvFold, FnvStep;
    ConnectionSteps();
    HashEmpty();
    assert CONNECTION[..0] == [] && CONNECTION[..10] == CONNECTION;
    HashPrefix(CONNECTION, 0);
    HashPrefix(CONNECTION, 1);
    HashPrefix(CONNECTION, 2);
    HashPrefix(CONNECTION, 3);
    HashPrefix(CONNECTION, 4);
    HashPrefix(CONNECTION, 5);
    HashPrefix(CONNECTION, 6);
    HashPrefix(CONNECTION, 7);
    HashPrefix(CONNECTION, 8);
    HashPrefix(CONNECTION, 9);
  }
}
