/** Predecoders: an address is cut into pieces of one to three bits and the pieces are combined in up to two stages. */
module PredecodeBlocks {
  import opened PowersOfTwo

  datatype Decoders = Decoders(d12: int, d24: int, d38: int) {
    function Total(): int {
      d12 + d24 + d38
    }

    function Bits(): int {
      d12 + 2 * d24 + 3 * d38
    }
  }

  /** Three bits at a time, with one or two two-bit decoders for the rest; a lone bit gets its own. */
  function CutAddress(n: int): Decoders
    requires n >= 1
  {
    if n == 1 then Decoders(1, 0, 0)
    else
      var d24 := if n % 3 == 2 then 1 else if n % 3 == 1 then 2 else 0;
      Decoders(0, d24, (n - 2 * d24) / 3)
  }

  /** The cut uses every bit once, and no decomposition into decoders of at most three bits is shorter. */
  lemma CutIsExactAndLeast(n: int, other: Decoders)
    requires n >= 1
    ensures var d := CutAddress(n);
      d.d12 >= 0 && d.d24 >= 0 && d.d38 >= 0 && d.Bits() == n && d.Total() == (n + 2) / 3
    ensures other.d12 >= 0 && other.d24 >= 0 && other.d38 >= 0 && other.Bits() == n ==>
      other.Total() >= CutAddress(n).Total()
  {
  }

  /** How the decoders are shared out over the groups of the first stage. */
  datatype Stages = Stages(a: int, b: int, c: int)

  function ShareOut(total: int): Stages
    requires 1 <= total <= 9
  {
    if total <= 3 then Stages(total, 0, 0)
    else if total <= 6 then Stages(total - total / 2, total / 2, 0)
    else if total == 7 then Stages(3, 2, 2)
    else if total == 8 then Stages(3, 3, 2)
    else Stages(3, 3, 3)
  }

  /** Address bits of group A: the two-bit decoders are all in it. */
  function BitsA(n: int): (bits: nat)
    requires 1 <= n <= 27
  {
    CutTotal(n);
    if n == 1 then 1 else 3 * ShareOut(CutAddress(n).Total()).a - CutAddress(n).d24
  }

  /** The lines that group A has to drive. */
  function LinesA(n: int): int
    requires 1 <= n <= 27
  {
    Pow2(BitsA(n))
  }

  function Lines(nandInputs: int): int
    requires nandInputs >= 0
  {
    Pow2(3 * nandInputs)
  }

  /** Together the groups decode the whole address. */
  lemma GroupsDecodeAddress(n: int)
    requires 1 <= n <= 27
    ensures var s := ShareOut(CutAddress(n).Total()); LinesA(n) * Lines(s.b) * Lines(s.c) == Pow2(n)
  {
    hide Pow2, CutAddress, ShareOut, BitsA;
    BitsOfGroups(n);
    CutTotal(n);
    var s := ShareOut(CutAddress(n).Total());
    ThreePowers(BitsA(n), 3 * s.b, 3 * s.c);
  }

  /** The groups share the decoders, two or three to each, and the address bits. */
  lemma BitsOfGroups(n: int)
    requires 1 <= n <= 27
    ensures var s := ShareOut(CutAddress(n).Total());
      && s.a >= 1 && s.b >= 0 && s.c >= 0 && BitsA(n) + 3 * s.b + 3 * s.c == n
      && (n >= 2 ==> BitsA(n) == 3 * s.a - CutAddress(n).d24)
  {
    hide CutAddress;
    OneBit();
    CutTotal(n);
    Shares(CutAddress(n).Total());
  }

  lemma Shares(total: int)
    requires 1 <= total <= 9
    ensures var s := ShareOut(total);
      && s.a + s.b + s.c == total
      && s.c <= s.b <= s.a && (s.c > 0 ==> s.a <= s.c + 1) && (s.b > 0 ==> s.a <= s.b + 1)
      && (if total == 1 then s.a == 1 else 2 <= s.a <= 3)
      && (if total < 4 then s.b == 0 else 2 <= s.b <= 3)
      && (if total < 7 then s.c == 0 else 2 <= s.c <= 3)
  {
  }

  lemma OneBit()
    ensures CutAddress(1) == Decoders(1, 0, 0) && Pow2(0) == 1 && Pow2(1) == 2
  {
    assert Pow2(1) == 2 * Pow2(0);
  }

  lemma ThreePowers(a: nat, b: nat, c: nat)
    ensures Pow2(a) * Pow2(b) * Pow2(c) == Pow2(a + b + c)
  {
    hide Pow2;
    Pow2Add(a, b);
    Pow2Add(a + b, c);
  }

  /** A kind of basic decoder: how many of them, the address bits of each, and the gates each output drives. */
  datatype Driver = Driver(count: int, width: nat, fanOut: int) {
    predicate Drives(lines: int) {
      fanOut * Pow2(width) == lines
    }

    function Bits(): int {
      count * width
    }
  }

  const NO_DRIVER := Driver(0, 0, 0)

  class PredecodeBlock {
    var initialized: bool
    var numAddressBit: int
    var numOutputAddressBit: int
    var decoders: Decoders
    var numNandInputStage1A: int
    var numNandInputStage1B: int
    var numNandInputStage1C: int
    var numAddressBitStage1A: int
    var numAddressBitStage1B: int
    var numAddressBitStage1C: int
    var hasStage1A: bool
    var hasStage1B: bool
    var hasStage1C: bool
    var hasStage2: bool
    var basicDecoderA1: Driver
    var basicDecoderA2: Driver
    var basicDecoderB: Driver
    var basicDecoderC: Driver

    /** The stage sizes are not initialised: the program leaves whatever the memory holds. */
    constructor (memory: int)
      ensures !initialized && numAddressBitStage1A == memory
    {
      initialized := false;
      numAddressBit, numOutputAddressBit, decoders := memory, memory, Decoders(memory, memory, memory);
      numNandInputStage1A, numNandInputStage1B, numNandInputStage1C := memory, memory, memory;
      numAddressBitStage1A, numAddressBitStage1B, numAddressBitStage1C := memory, memory, memory;
      hasStage1A, hasStage1B, hasStage1C, hasStage2 := false, false, false, false;
      basicDecoderA1, basicDecoderA2, basicDecoderB, basicDecoderC := NO_DRIVER, NO_DRIVER, NO_DRIVER, NO_DRIVER;
    }

    /** Which combining stages there are, and how many decoders feed each. */
    ghost predicate Combined(n: int)
      reads this
      requires 1 <= n <= 27
    {
      var total := CutAddress(n).Total();
      var s := ShareOut(total);
      && hasStage1A == (total >= 2) && hasStage1B == (total >= 4) && hasStage1C == (total >= 7)
      && hasStage2 == (total >= 4)
      && (hasStage1A ==> numNandInputStage1A == s.a)
      && (hasStage1B ==> numNandInputStage1B == s.b)
      && (hasStage1C ==> numNandInputStage1C == s.c)
    }

    /** What the combining stages look like. */
    ghost predicate Staged(n: int, sizeBefore: int)
      reads this
      requires 1 <= n <= 27
    {
      && Combined(n)
      && (hasStage1B ==> numAddressBitStage1B == Lines(numNandInputStage1B))
      && (hasStage1C ==> numAddressBitStage1C == Lines(numNandInputStage1C))
      && (hasStage1B ==> numAddressBitStage1A == ShiftLeft(if hasStage1C then sizeBefore else 1, BitsA(n)))
      && (!hasStage1B ==> numAddressBitStage1A == sizeBefore)
    }

    /** Every basic decoder drives all lines of its group. */
    ghost predicate Driven(n: int)
      reads this
      requires 1 <= n <= 27
    {
      var s := ShareOut(CutAddress(n).Total());
      && (hasStage1A ==>
        basicDecoderA1.Drives(LinesA(n)) && (basicDecoderA2.count > 0 ==> basicDecoderA2.Drives(LinesA(n))))
      && (!hasStage1A ==> basicDecoderA1 == Driver(1, n, 1) && basicDecoderA2 == NO_DRIVER)
      && (if hasStage1B then basicDecoderB.Drives(Lines(s.b)) else basicDecoderB == NO_DRIVER)
      && (if hasStage1C then basicDecoderC.Drives(Lines(s.c)) else basicDecoderC == NO_DRIVER)
    }

    /** All decoders of the cut are there, and together they take in all bits. */
    ghost predicate Complete(n: int)
      reads this
      requires 1 <= n <= 27
    {
      && basicDecoderA1.count + basicDecoderA2.count + basicDecoderB.count + basicDecoderC.count
        == CutAddress(n).Total()
      && basicDecoderA1.Bits() + basicDecoderA2.Bits() + basicDecoderB.Bits() + basicDecoderC.Bits() == n
    }

    method Initialize(n: nat) returns (exited: bool)
      modifies this
      ensures exited <==> n > 27
      ensures !exited ==> initialized && numAddressBit == n
      ensures 1 <= n <= 27 ==>
        && decoders == CutAddress(n) && numOutputAddressBit == Pow2(n)
        && Staged(n, old(numAddressBitStage1A)) && Driven(n) && Complete(n)
        && hasStage1A == (n > 3) && hasStage1B == hasStage2 == (n > 9) && hasStage1C == (n > 18)
      ensures 9 < n <= 18 ==> numAddressBitStage1A * numAddressBitStage1B == Pow2(n)
      ensures 18 < n <= 27 ==>
        (numAddressBitStage1A * numAddressBitStage1B * numAddressBitStage1C == Pow2(n)
         <==> old(numAddressBitStage1A) == 1)
      ensures n == 0 ==> numAddressBitStage1A == old(numAddressBitStage1A)
    {
      hide Pow2, CutAddress, ShareOut, ShiftLeft, Lines, LinesA, BitsA, Driver.Drives, Driver.Bits;
      numAddressBit := n;
      if n > 27 {
        return true;
      }
      exited := false;
      if n > 0 {
        CountDecoders(n);
        TotalByBits(n);
        CombineStages(n);
        SizeStages(n);
        if n > 18 {
          StageSizesNeedOne(n, old(numAddressBitStage1A));
        } else if n > 9 {
          TwoGroups(n);
        }
        ConnectDecoders(n);
      }
      initialized := true;
    }

    /** Counts the decoders of each width. */
    method CountDecoders(n: nat)
      requires 1 <= n <= 27
      modifies this`decoders, this`numOutputAddressBit
      ensures decoders == CutAddress(n) && numOutputAddressBit == Pow2(n)
    {
      hide Pow2;
      numOutputAddressBit := Pow2(n);
      if n == 1 {
        decoders := Decoders(1, 0, 0);
      } else {
        var numAddressMod3, numDecoder24 := n % 3, 0;
        if numAddressMod3 == 2 {
          numDecoder24 := 1;
        } else if numAddressMod3 == 1 {
          numDecoder24 := 2;
        }
        decoders := Decoders(0, numDecoder24, (n - 2 * numDecoder24) / 3);
      }
    }

    /** Groups the decoders into stages. */
    method CombineStages(n: nat)
      requires 1 <= n <= 27 && decoders == CutAddress(n)
      modifies this`hasStage1A, this`hasStage1B, this`hasStage1C, this`hasStage2
      modifies this`numNandInputStage1A, this`numNandInputStage1B, this`numNandInputStage1C
      ensures Combined(n)
    {
      hide CutAddress;
      CutTotal(n);
      var numBasicDecoder := decoders.d12 + decoders.d24 + decoders.d38;
      hasStage1A, hasStage1B, hasStage1C := numBasicDecoder >= 2, numBasicDecoder >= 4, numBasicDecoder >= 7;
      hasStage2 := numBasicDecoder >= 4;
      if numBasicDecoder <= 1 {
      } else if numBasicDecoder <= 3 {
        numNandInputStage1A := numBasicDecoder;
      } else if numBasicDecoder <= 6 {
        numNandInputStage1B := numBasicDecoder / 2;
        numNandInputStage1A := numBasicDecoder - numNandInputStage1B;
      } else if numBasicDecoder == 7 {
        numNandInputStage1A, numNandInputStage1B, numNandInputStage1C := 3, 2, 2;
      } else if numBasicDecoder == 8 {
        numNandInputStage1A, numNandInputStage1B, numNandInputStage1C := 3, 3, 2;
      } else {
        numNandInputStage1A, numNandInputStage1B, numNandInputStage1C := 3, 3, 3;
      }
    }

    /** Sizes the stages: from seven decoders on, the size of group A is shifted as it was found. */
    method SizeStages(n: nat)
      requires 1 <= n <= 27 && decoders == CutAddress(n) && Combined(n)
      modifies this`numAddressBitStage1A, this`numAddressBitStage1B, this`numAddressBitStage1C
      ensures Staged(n, old(numAddressBitStage1A))
    {
      hide Pow2, CutAddress, ShareOut, ShiftLeft, Lines, BitsA;
      CutTotal(n);
      Shares(CutAddress(n).Total());
      BitsOfGroups(n);
      OneBit();
      SmallLines();
      if hasStage1C {
        numAddressBitStage1A := ShiftLeft(numAddressBitStage1A, 3 * numNandInputStage1A - decoders.d24);
        numAddressBitStage1B := if numNandInputStage1B == 3 then 512 else 64;
        numAddressBitStage1C := if numNandInputStage1C == 3 then 512 else 64;
      } else if hasStage1B {
        ShiftOne(numNandInputStage1B);
        numAddressBitStage1A := ShiftLeft(1, 3 * numNandInputStage1A - decoders.d24);
        numAddressBitStage1B := ShiftLeft(1, 3 * numNandInputStage1B);
      }
    }

    method ConnectDecoders(n: nat)
      requires 1 <= n <= 27 && decoders == CutAddress(n)
      requires Combined(n)
      modifies this`basicDecoderA1, this`basicDecoderA2, this`basicDecoderB, this`basicDecoderC
      ensures Driven(n) && Complete(n)
    {
      hide Pow2, CutAddress, ShareOut, BitsA, Lines, LinesA, Driver.Drives, Driver.Bits, ShiftLeft;
      CutTotal(n);
      Shares(CutAddress(n).Total());
      BitsOfGroups(n);
      OneBit();
      NoDriverNoBits();
      basicDecoderC := ConnectGroup(hasStage1C, numNandInputStage1C);
      basicDecoderB := ConnectGroup(hasStage1B, numNandInputStage1B);
      if hasStage1A {
        basicDecoderA1, basicDecoderA2 := ConnectGroupA(numNandInputStage1A, decoders.d24);
        assert LinesA(n) == Pow2(3 * numNandInputStage1A - decoders.d24) by { LinesOfGroupA(n); }
      } else {
        basicDecoderA1 := ConnectAlone(n, decoders);
        basicDecoderA2 := NO_DRIVER;
      }
    }
  }

  lemma LinesOfGroupA(n: int)
    requires 1 <= n <= 27
    ensures LinesA(n) == Pow2(BitsA(n))
  {
  }

  /** A single decoder takes in the whole address and drives one gate. */
  method ConnectAlone(n: nat, decoders: Decoders) returns (d: Driver)
    requires 1 <= n <= 27 && decoders == CutAddress(n) && decoders.Total() == 1
    ensures d == Driver(1, n, 1) && d.Bits() == n
  {
    if decoders.d12 == 1 {
      d := Driver(1, 1, 1);
    } else if decoders.d24 == 1 {
      d := Driver(1, 2, 1);
    } else {
      d := Driver(1, 3, 1);
    }
  }

  lemma TotalByBits(n: int)
    requires 1 <= n <= 27
    ensures var total := CutAddress(n).Total();
      (total >= 2 <==> n > 3) && (total >= 4 <==> n > 9) && (total >= 7 <==> n > 18)
  {
  }

  lemma NoDriverNoBits()
    ensures NO_DRIVER.Bits() == 0
  {
  }

  lemma ShiftOne(k: nat)
    ensures ShiftLeft(1, 3 * k) == Lines(k)
  {
  }

  /** A group, if it is there, has two or three three-bit decoders. */
  method ConnectGroup(exist: bool, numNandInput: int) returns (d: Driver)
    requires exist ==> 2 <= numNandInput <= 3
    ensures exist ==>
      d.width == 3 && d.Drives(Lines(numNandInput)) && d.count == numNandInput && d.Bits() == 3 * numNandInput
    ensures !exist ==> d == NO_DRIVER
  {
    SmallLines();
    if !exist {
      d := NO_DRIVER;
    } else {
      d := Driver(numNandInput, 3, if numNandInput == 2 then 8 else 64);
    }
  }

  /** Group A holds the two-bit decoders beside three-bit ones. */
  method ConnectGroupA(numNandInput: nat, numDecoder24: nat) returns (a1: Driver, a2: Driver)
    requires 2 <= numNandInput <= 3 && numDecoder24 <= 2
    ensures a1.Drives(Pow2(3 * numNandInput - numDecoder24))
    ensures a2.count > 0 ==> a2.Drives(Pow2(3 * numNandInput - numDecoder24))
    ensures a1.count + a2.count == numNandInput && a1.count >= 0 && a2.count >= 0
    ensures a1.Bits() + a2.Bits() == 3 * numNandInput - numDecoder24
    ensures if numDecoder24 == 0 then a1.width == 3 && a2 == NO_DRIVER else a1.width == 2 && a1.count == numDecoder24
    ensures a2 == NO_DRIVER || (a2.count > 0 && a2.width == 3)
  {
    hide Pow2;
    SmallLines();
    if numDecoder24 == 0 {
      a1 := Driver(numNandInput, 3, Pow2(3 * (numNandInput - 1)));
      a2 := NO_DRIVER;
      Pow2Add(3 * (numNandInput - 1), 3);
    } else if numDecoder24 == 1 {
      var numBasicDecoderA2 := numNandInput - 1;
      a1 := Driver(1, 2, Pow2(3 * numBasicDecoderA2));
      a2 := Driver(numBasicDecoderA2, 3, Pow2(2 + 3 * (numBasicDecoderA2 - 1)));
      Pow2Add(3 * numBasicDecoderA2, 2);
      Pow2Add(2 + 3 * (numBasicDecoderA2 - 1), 3);
    } else {
      if numNandInput == 2 {
        a1, a2 := Driver(2, 2, 4), NO_DRIVER;
      } else {
        a1, a2 := Driver(2, 2, 32), Driver(1, 3, 16);
      }
    }
  }

  /** The two-bit decoders make up what the cut falls short of three bits a piece. */
  lemma CutTotal(n: int)
    requires 1 <= n <= 27
    ensures var d := CutAddress(n);
      && 1 <= d.Total() <= 9 && d.d38 == d.Total() - d.d12 - d.d24
      && (n >= 2 ==> d.d12 == 0 && d.d24 == 3 * d.Total() - n && 0 <= d.d24 <= 2)
  {
  }

  lemma SmallLines()
    ensures Pow2(2) == 4 && Pow2(3) == 8 && Pow2(4) == 16 && Pow2(6) == 64 && Pow2(7) == 128 && Pow2(9) == 512
    ensures Lines(2) == 64 && Lines(3) == 512
  {
    assert Pow2(3) == 8;
    assert Pow2(6) == 8 * Pow2(3);
    assert Pow2(9) == 8 * Pow2(6);
  }

  /**
   * Above eighteen bits the size of group A is shifted without having been set, so the
   * stage sizes multiply to the number of lines exactly when the field happened to be one.
   */
  lemma StageSizesNeedOne(n: int, sizeBefore: int)
    requires 19 <= n <= 27
    ensures var s := ShareOut(CutAddress(n).Total());
      ShiftLeft(sizeBefore, BitsA(n)) * Lines(s.b) * Lines(s.c) == Pow2(n) <==> sizeBefore == 1
  {
    hide Pow2, CutAddress, Lines;
    CutTotal(n);
    var s := ShareOut(CutAddress(n).Total());
    GroupsDecodeAddress(n);
    Regroup4(sizeBefore, LinesA(n), Lines(s.b), Lines(s.c));
    ScaleIsOne(sizeBefore, Pow2(n));
  }

  /** Nineteen bits over zeroed memory: the first group is left without a line. */
  lemma ZeroedStageSize()
    ensures var s := ShareOut(CutAddress(19).Total());
      ShiftLeft(0, BitsA(19)) * Lines(s.b) * Lines(s.c) == 0 != Pow2(19)
  {
    hide Pow2, BitsA;
    CutTotal(19);
    StageSizesNeedOne(19, 0);
  }

  /** With two groups the sizes multiply to all lines. */
  lemma TwoGroups(n: int)
    requires 10 <= n <= 18
    ensures var s := ShareOut(CutAddress(n).Total()); ShiftLeft(1, BitsA(n)) * Lines(s.b) == Pow2(n)
  {
    hide Pow2, CutAddress, ShareOut, BitsA, Lines, ShiftLeft;
    CutTotal(n);
    TotalByBits(n);
    Shares(CutAddress(n).Total());
    GroupsDecodeAddress(n);
    OneLine();
    ShiftOneIs(BitsA(n));
    LinesOfGroupA(n);
  }

  lemma ShiftOneIs(k: nat)
    ensures ShiftLeft(1, k) == Pow2(k)
  {
  }

  lemma OneLine()
    ensures Lines(0) == 1
  {
  }

  lemma ScaleIsOne(x: int, p: int)
    requires p >= 1
    ensures x * p == p <==> x == 1
  {
    if x * p == p {
      ExactDivision(x, p);
      ExactDivision(1, p);
    }
  }

  lemma Regroup4(a: int, b: int, c: int, d: int)
    ensures a * b * c * d == a * (b * c * d)
  {
    assert a * b * c == a * (b * c);
    assert a * (b * c) * d == a * ((b * c) * d);
  }
}
