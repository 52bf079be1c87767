/** The table-driven checksum: eight steps of division per table look-up. */
module Crc {
  import opened Bits
  import opened LongDivision

  /** Eight division steps starting from the byte b in the top bits. */
  function TableEntry(b: Bits, poly: Bits): (r: Bits)
    requires |b| == 8 <= |poly|
    ensures |r| == |poly|
  {
    Feed(b + Zeros(|poly| - 8), Zeros(8), poly)
  }

  /** One look-up does what eight single steps do. */
  lemma TableStep(reg: Bits, byte: Bits, poly: Bits)
    requires |byte| == 8 <= |reg| == |poly|
    ensures Xor(TableEntry(Xor(reg[..8], byte), poly), Shl(reg, 8)) == Feed(reg, byte, poly)
  {
    var w := |poly|;
    var high, low := Xor(reg[..8], byte) + Zeros(w - 8), Zeros(8) + reg[8..];
    assert Xor(reg, byte + Zeros(w - 8)) == Xor(high, low) by { SplitRegister(reg, byte); }
    hide *;
    FeedAtTop(reg, byte, poly);
    XorZeros(Zeros(8));
    FeedLinear(high, low, Zeros(8), Zeros(8), poly);
    FeedShifts(reg[8..], 8, poly);
    EntryAndShift(reg, byte, poly);
  }

  lemma SplitRegister(reg: Bits, byte: Bits)
    requires |byte| == 8 <= |reg|
    ensures Xor(reg, byte + Zeros(|reg| - 8)) == Xor(Xor(reg[..8], byte) + Zeros(|reg| - 8), Zeros(8) + reg[8..])
  {}

  lemma EntryAndShift(reg: Bits, byte: Bits, poly: Bits)
    requires |byte| == 8 <= |reg| == |poly|
    ensures TableEntry(Xor(reg[..8], byte), poly) == Feed(Xor(reg[..8], byte) + Zeros(|poly| - 8), Zeros(8), poly)
    ensures Shl(reg, 8) == reg[8..] + Zeros(8)
  {}

  // ----- messages of bytes

  ghost predicate Bytes(msg: seq<Bits>) {
    forall i :: 0 <= i < |msg| ==> |msg[i]| == 8
  }

  function BitsOf(msg: seq<Bits>): Bits {
    if |msg| == 0 then [] else msg[0] + BitsOf(msg[1..])
  }

  lemma {:induction false} BitsOfConcat(x: seq<Bits>, y: seq<Bits>)
    ensures BitsOf(x + y) == BitsOf(x) + BitsOf(y)
  {
    if |x| == 0 {
      assert x + y == y;
    } else {
      assert (x + y)[1..] == x[1..] + y;
      BitsOfConcat(x[1..], y);
    }
  }

  lemma {:induction false} BitsOfLength(x: seq<Bits>)
    requires Bytes(x)
    ensures |BitsOf(x)| == 8 * |x|
  {
    if |x| == 0 {
    } else {
      BitsOfLength(x[1..]);
    }
  }

  lemma BitsOfNext(msg: seq<Bits>, k: nat)
    requires k < |msg|
    ensures BitsOf(msg[..k+1]) == BitsOf(msg[..k]) + msg[k]
  {
    assert msg[..k+1] == msg[..k] + [msg[k]];
    BitsOfConcat(msg[..k], [msg[k]]);
    assert BitsOf([msg[k]]) == msg[k] + BitsOf([]);
  }

  /** A word as bytes, the most significant one first. */
  function BigEndian(x: Bits): (r: seq<Bits>)
    requires |x| % 8 == 0
    ensures Bytes(r)
  {
    if |x| == 0 then [] else [x[..8]] + BigEndian(x[8..])
  }

  lemma {:induction false} BigEndianBits(x: Bits)
    requires |x| % 8 == 0
    ensures BitsOf(BigEndian(x)) == x
    decreases |x|
  {
    if |x| == 0 {
    } else {
      BigEndianBits(x[8..]);
      assert BigEndian(x)[1..] == BigEndian(x[8..]);
      assert x == x[..8] + x[8..];
    }
  }

  // ----- the class

  function And(x: Bits, y: Bits): (r: Bits)
    requires |x| == |y|
    ensures |r| == |x|
  {
    seq(|x|, i requires 0 <= i < |x| => x[i] && y[i])
  }

  /** 1 << (w - 1) */
  function TopBit(w: nat): (r: Bits)
    requires w > 0
    ensures |r| == w
  {
    [true] + Zeros(w - 1)
  }

  lemma TopBitTest(x: Bits)
    requires |x| > 0
    ensures And(x, TopBit(|x|)) != Zeros(|x|) <==> x[0]
  {
    if x[0] {
      assert And(x, TopBit(|x|))[0];
    } else {
      assert And(x, TopBit(|x|)) == Zeros(|x|);
    }
  }

  lemma StepByTest(reg: Bits, poly: Bits)
    requires |reg| == |poly| > 0
    ensures Step(reg, false, poly) == if reg[0] then Xor(Shl(reg, 1), poly) else Shl(reg, 1)
  {
    XorZeros(Shl(reg, 1));
  }

  lemma FeedOneMore(reg: Bits, k: nat, poly: Bits)
    requires |reg| == |poly| > 0
    ensures Feed(reg, Zeros(k + 1), poly) == Step(Feed(reg, Zeros(k), poly), false, poly)
  {
    ZerosConcat(k, 1);
    FeedConcat(reg, Zeros(k), Zeros(1), poly);
    assert Zeros(1)[1..] == [];
  }

  lemma DividendOnTop(v: nat, w: nat)
    requires v < 256 && 8 <= w
    ensures Shl(WordOf(v, w), w - 8) == WordOf(v, 8) + Zeros(w - 8)
  {
    assert Pow2(8) == 256;
    WordOfSmall(v, w - 8, 8);
  }

  /** The index that crcCompute looks up. */
  lemma LookupByte(reg: Bits, byte: Bits)
    requires 8 == |byte| <= |reg|
    ensures Low(Xor(Shr(reg, |reg| - 8), SignExtend(byte, |reg|)), 8) == Xor(reg[..8], byte)
  {}

  lemma LookupIndex(b: Bits)
    requires |b| == 8
    ensures ValueOf(b) < 256 && WordOf(ValueOf(b), 8) == b
  {
    assert Pow2(8) == 256;
    ValueBound(b);
    WordOfValue(b);
  }

  /** The checksum of a message, by single steps. */
  function Checksum(init: Bits, msg: seq<Bits>, xor: Bits, poly: Bits): (r: Bits)
    requires |init| == |xor| == |poly| > 0
    ensures |r| == |poly|
  {
    Xor(Feed(init, BitsOf(msg), poly), xor)
  }

  class Crc {
    const width: nat
    var polynomial: Bits
    var initialRemainder: Bits
    var finalXorValue: Bits
    var remainder: Bits
    const crcTable: array<Bits>

    ghost predicate Words()
      reads `polynomial, `initialRemainder, `finalXorValue, `remainder
    {
      && width > 8 && crcTable.Length == 256
      && |polynomial| == |initialRemainder| == |finalXorValue| == |remainder| == width
    }

    /** The table belongs to the polynomial. */
    ghost predicate Valid()
      reads `polynomial, `initialRemainder, `finalXorValue, `remainder, crcTable
    {
      && Words()
      && forall i :: 0 <= i < 256 ==> crcTable[i] == TableEntry(WordOf(i, 8), polynomial)
    }

    constructor (width: nat, polynomial: Bits, initRemainder: Bits, finalXorValue: Bits)
      requires width > 8 && |polynomial| == |initRemainder| == |finalXorValue| == width
      ensures Valid() && fresh(crcTable) && this.width == width
      ensures this.polynomial == polynomial && initialRemainder == initRemainder && this.finalXorValue == finalXorValue
    {
      this.width := width;
      this.polynomial, initialRemainder, this.finalXorValue := polynomial, initRemainder, finalXorValue;
      remainder := Zeros(width);
      crcTable := new Bits[256](i => []);
      new;
      CrcInit();
    }

    method Build(polynomial: Bits, initRemainder: Bits, finalXorValue: Bits)
      requires Words() && |polynomial| == |initRemainder| == |finalXorValue| == width
      modifies `polynomial, `initialRemainder, `finalXorValue, crcTable
      ensures Valid()
      ensures this.polynomial == polynomial && initialRemainder == initRemainder && this.finalXorValue == finalXorValue
    {
      this.polynomial, initialRemainder, this.finalXorValue := polynomial, initRemainder, finalXorValue;
      CrcInit();
    }

    /** Fills the table, a bit at a time. */
    method CrcInit()
      requires Words()
      modifies crcTable
      ensures Valid()
    {
      hide *;
      Sizes();
      for dividend := 0 to 256
        invariant forall i :: 0 <= i < dividend ==> crcTable[i] == TableEntry(WordOf(i, 8), polynomial)
      {
        var r := Shl(WordOf(dividend, width), width - 8);
        ghost var start := WordOf(dividend, 8) + Zeros(width - 8);
        DividendOnTop(dividend, width);
        FeedZero(start, polynomial);
        for bit := 0 to 8
          invariant |r| == width && r == Feed(start, Zeros(bit), polynomial)
          invariant forall i :: 0 <= i < dividend ==> crcTable[i] == TableEntry(WordOf(i, 8), polynomial)
        {
          TopBitTest(r);
          StepByTest(r, polynomial);
          FeedOneMore(start, bit, polynomial);
          if And(r, TopBit(width)) != Zeros(width) {
            r := Xor(Shl(r, 1), polynomial);
          } else {
            r := Shl(r, 1);
          }
        }
        EntryOf(WordOf(dividend, 8), polynomial);
        crcTable[dividend] := r;
      }
      IsValid();
    }

    lemma Sizes()
      requires Words()
      ensures width > 8 && crcTable.Length == 256
      ensures |polynomial| == |initialRemainder| == |finalXorValue| == |remainder| == width
    {}

    lemma IsValid()
      requires Words() && forall i :: 0 <= i < 256 ==> crcTable[i] == TableEntry(WordOf(i, 8), polynomial)
      ensures Valid()
    {}

    static lemma FeedZero(reg: Bits, poly: Bits)
      requires |reg| == |poly| > 0
      ensures Feed(reg, Zeros(0), poly) == reg
    {}

    static lemma EntryOf(b: Bits, poly: Bits)
      requires |b| == 8 <= |poly|
      ensures TableEntry(b, poly) == Feed(b + Zeros(|poly| - 8), Zeros(8), poly)
    {}

    /** A byte of the message at a time, by table look-up. */
    method Divide(start: Bits, message: seq<Bits>) returns (r: Bits)
      requires Valid() && |start| == width && Bytes(message)
      ensures |r| == width && r == Feed(start, BitsOf(message), polynomial)
    {
      r := start;
      assert message[..0] == [];
      for offset := 0 to |message|
        invariant |r| == width && r == Feed(start, BitsOf(message[..offset]), polynomial)
      {
        var byte := Low(Xor(Shr(r, width - 8), SignExtend(message[offset], width)), 8);
        NextByte(start, message, offset, r, byte);
        r := Xor(crcTable[ValueOf(byte)], Shl(r, 8));
      }
      assert message[..|message|] == message;
    }

    lemma NextByte(start: Bits, message: seq<Bits>, offset: nat, r: Bits, byte: Bits)
      requires Valid() && |start| == |r| == width && Bytes(message) && offset < |message| && |byte| == 8
      requires r == Feed(start, BitsOf(message[..offset]), polynomial)
      requires byte == Low(Xor(Shr(r, width - 8), SignExtend(message[offset], width)), 8)
      ensures ValueOf(byte) < 256
      ensures crcTable[ValueOf(byte)] == TableEntry(byte, polynomial)
      ensures Xor(TableEntry(byte, polynomial), Shl(r, 8)) == Feed(start, BitsOf(message[..offset+1]), polynomial)
    {
      LookupIndex(byte);
      assert crcTable[ValueOf(byte)] == TableEntry(WordOf(ValueOf(byte), 8), polynomial);
      hide *;
      Sizes();
      LookupByte(r, message[offset]);
      TableStep(r, message[offset], polynomial);
      BitsOfNext(message, offset);
      FeedConcat(start, BitsOf(message[..offset]), message[offset], polynomial);
    }

    method CrcCompute(message: seq<Bits>) returns (crc: Bits)
      requires Valid() && Bytes(message)
      ensures crc == Checksum(initialRemainder, message, finalXorValue, polynomial)
    {
      var r := Divide(initialRemainder, message);
      crc := Xor(r, finalXorValue);
    }

    /** The message in pieces: the register survives between the calls. */
    method CrcComputeNext(message: seq<Bits>, reinit: bool) returns (crc: Bits)
      requires Valid() && Bytes(message)
      modifies `remainder
      ensures Valid()
      ensures remainder == Feed(if reinit then initialRemainder else old(remainder), BitsOf(message), polynomial)
      ensures crc == Xor(remainder, finalXorValue)
    {
      if reinit {
        remainder := initialRemainder;
      }
      remainder := Divide(remainder, message);
      crc := Xor(remainder, finalXorValue);
    }

    /** Feeding a message in chunks gives the checksum of the whole message. */
    method CrcOfChunks(chunks: seq<seq<Bits>>) returns (crc: Bits)
      requires Valid() && |chunks| > 0 && forall i :: 0 <= i < |chunks| ==> Bytes(chunks[i])
      modifies `remainder
      ensures Valid() && crc == Checksum(initialRemainder, Flatten(chunks), finalXorValue, polynomial)
    {
      crc := CrcComputeNext(chunks[0], true);
      FlattenOne(chunks);
      for i := 1 to |chunks|
        invariant Valid()
        invariant remainder == Feed(initialRemainder, BitsOf(Flatten(chunks[..i])), polynomial)
        invariant crc == Xor(remainder, finalXorValue)
      {
        FlattenNext(chunks, i);
        FeedConcat(initialRemainder, BitsOf(Flatten(chunks[..i])), BitsOf(chunks[i]), polynomial);
        crc := CrcComputeNext(chunks[i], false);
      }
      assert chunks[..|chunks|] == chunks;
    }
  }

  function Flatten(chunks: seq<seq<Bits>>): seq<Bits> {
    if |chunks| == 0 then [] else Flatten(chunks[..|chunks|-1]) + chunks[|chunks|-1]
  }

  lemma FlattenOne(chunks: seq<seq<Bits>>)
    requires |chunks| > 0
    ensures Flatten(chunks[..1]) == chunks[0]
  {
    assert chunks[..1][..0] == [];
  }

  lemma FlattenNext(chunks: seq<seq<Bits>>, i: nat)
    requires i < |chunks|
    ensures BitsOf(Flatten(chunks[..i+1])) == BitsOf(Flatten(chunks[..i])) + BitsOf(chunks[i])
  {
    assert chunks[..i+1][..i] == chunks[..i];
    BitsOfConcat(Flatten(chunks[..i]), chunks[i]);
  }

  // ----- what the checksum promises

  lemma ChecksumIsRemainder(init: Bits, msg: seq<Bits>, xor: Bits, poly: Bits)
    requires |init| == |xor| == |poly| > 0
    ensures IsRemainder(Dividend(init, BitsOf(msg)), Xor(Checksum(init, msg, xor, poly), xor), poly)
  {
    var r := Feed(init, BitsOf(msg), poly);
    RegisterIsRemainder(init, BitsOf(msg), poly);
    hide IsRemainder, Feed, Dividend;
    XorComm(r, xor);
    XorComm(Xor(xor, r), xor);
    XorCancel(xor, r);
  }

  lemma SameChecksum(r: Bits, s: Bits, xor: Bits)
    requires |r| == |s| == |xor|
    ensures Xor(r, xor) == Xor(s, xor) <==> r == s
  {
    XorComm(r, xor);
    XorComm(s, xor);
    XorCancel(xor, r);
    XorCancel(xor, s);
  }

  /** Two messages of equal length have the same checksum exactly when P divides their
      difference times x^W. */
  lemma ChecksumsCollide(init: Bits, m: seq<Bits>, n: seq<Bits>, xor: Bits, poly: Bits)
    requires |init| == |xor| == |poly| > 0 && Bytes(m) && Bytes(n) && |m| == |n|
    ensures |BitsOf(m)| == |BitsOf(n)|
    ensures Checksum(init, m, xor, poly) == Checksum(init, n, xor, poly)
       <==> exists q: Bits :: |q| == |BitsOf(m)| && Multiple(q, poly) == Xor(BitsOf(m), BitsOf(n)) + Zeros(|poly|)
  {
    hide Feed, Multiple;
    BitsOfLength(m);
    BitsOfLength(n);
    Undetected(init, BitsOf(m), BitsOf(n), poly);
    SameChecksum(Feed(init, BitsOf(m), poly), Feed(init, BitsOf(n), poly), xor);
  }

  /** When the polynomial has its lowest bit set, exactly when P divides their difference. */
  lemma OddChecksumsCollide(init: Bits, m: seq<Bits>, n: seq<Bits>, xor: Bits, poly: Bits)
    requires |init| == |xor| == |poly| > 0 && poly[|poly|-1] && Bytes(m) && Bytes(n) && |m| == |n|
    ensures |BitsOf(m)| == |BitsOf(n)|
    ensures Checksum(init, m, xor, poly) == Checksum(init, n, xor, poly)
       <==> IsMultiple(Xor(BitsOf(m), BitsOf(n)), poly)
  {
    hide Feed, IsMultiple;
    BitsOfLength(m);
    BitsOfLength(n);
    OddUndetected(init, BitsOf(m), BitsOf(n), poly);
    SameChecksum(Feed(init, BitsOf(m), poly), Feed(init, BitsOf(n), poly), xor);
  }

  /** When the polynomial has its lowest bit set, every burst of at most W wrong bits
      changes the checksum. */
  lemma BurstChangesChecksum(init: Bits, m: seq<Bits>, n: seq<Bits>, i: nat, k: nat, xor: Bits, poly: Bits)
    requires |init| == |xor| == |poly| > 0 && poly[|poly|-1]
    requires i <= k <= |BitsOf(m)| == |BitsOf(n)| && k - i <= |poly|
    requires BitsOf(m) != BitsOf(n) && BitsOf(m)[..i] == BitsOf(n)[..i] && BitsOf(m)[k..] == BitsOf(n)[k..]
    ensures Checksum(init, m, xor, poly) != Checksum(init, n, xor, poly)
  {
    hide Feed;
    BurstIsDetected(init, BitsOf(m), BitsOf(n), i, k, poly);
    SameChecksum(Feed(init, BitsOf(m), poly), Feed(init, BitsOf(n), poly), xor);
  }

  /** A message followed by its own checksum leaves a register that depends on the
      final xor value only, and is zero when that value is. */
  lemma AppendedChecksum(init: Bits, msg: seq<Bits>, xor: Bits, poly: Bits)
    requires |init| == |xor| == |poly| > 0 && |poly| % 8 == 0
    ensures var sent := msg + BigEndian(Checksum(init, msg, xor, poly));
            && Feed(init, BitsOf(sent), poly) == Feed(xor, Zeros(|poly|), poly)
            && (xor == Zeros(|poly|) ==> Feed(init, BitsOf(sent), poly) == Zeros(|poly|))
  {
    var c := Checksum(init, msg, xor, poly);
    BitsOfConcat(msg, BigEndian(c));
    BigEndianBits(c);
    FeedConcat(init, BitsOf(msg), c, poly);
    AppendedRegister(Feed(init, BitsOf(msg), poly), xor, poly);
  }
}
