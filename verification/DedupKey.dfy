/**
 The key an apply is deduplicated by: its fields as a stream of 64-bit words, each mixed into a running state. The map
 uses the hash itself as the key, so what the stream and the mixing keep apart is what the cache keeps apart.
 */
module DedupKey {
  import opened Wrappers

  const U64: nat := 0x1_0000_0000_0000_0000

  /** A byte slice: its length fits a 64-bit word. */
  type Field = b: seq<bv8> | |b| < U64

  datatype Fall = Fall(rule: Field, assignmentId: Field, targetingKey: Field, selector: Field)

  type Falls = f: seq<Fall> | |f| < U64

  datatype Applied = Applied(
    flag: Field,
    targetingKey: Field,
    selector: Field,
    assignmentId: Field,
    variant: Field,
    segment: Field,
    rule: Field,
    reason: bv32,
    falls: Falls)

  // ----- Little-endian words

  function Le(b: seq<bv8>): bv64
    requires |b| == 8
  {
    Pack(b[0], b[1], b[2], b[3], b[4], b[5], b[6], b[7])
  }

  function ByteAt(w: bv64, i: nat): bv8 {
    match i
    case 0 => (w & 0xFF) as bv8
    case 1 => ((w >> 8) & 0xFF) as bv8
    case 2 => ((w >> 16) & 0xFF) as bv8
    case 3 => ((w >> 24) & 0xFF) as bv8
    case 4 => ((w >> 32) & 0xFF) as bv8
    case 5 => ((w >> 40) & 0xFF) as bv8
    case 6 => ((w >> 48) & 0xFF) as bv8
    case _ => ((w >> 56) & 0xFF) as bv8
  }

  function BytesOf(w: bv64): (b: seq<bv8>)
    ensures |b| == 8
  {
    [ByteAt(w, 0), ByteAt(w, 1), ByteAt(w, 2), ByteAt(w, 3), ByteAt(w, 4), ByteAt(w, 5), ByteAt(w, 6), ByteAt(w, 7)]
  }

  function Pack(b0: bv8, b1: bv8, b2: bv8, b3: bv8, b4: bv8, b5: bv8, b6: bv8, b7: bv8): bv64 {
    (b0 as bv64) | ((b1 as bv64) << 8) | ((b2 as bv64) << 16) | ((b3 as bv64) << 24)
    | ((b4 as bv64) << 32) | ((b5 as bv64) << 40) | ((b6 as bv64) << 48) | ((b7 as bv64) << 56)
  }

  lemma PackLow(b0: bv8, b1: bv8, b2: bv8, b3: bv8, b4: bv8, b5: bv8, b6: bv8, b7: bv8)
    ensures var w := Pack(b0, b1, b2, b3, b4, b5, b6, b7);
            ByteAt(w, 0) == b0 && ByteAt(w, 1) == b1 && ByteAt(w, 2) == b2 && ByteAt(w, 3) == b3
  {
  }

  lemma PackHigh(b0: bv8, b1: bv8, b2: bv8, b3: bv8, b4: bv8, b5: bv8, b6: bv8, b7: bv8)
    ensures var w := Pack(b0, b1, b2, b3, b4, b5, b6, b7);
            ByteAt(w, 4) == b4 && ByteAt(w, 5) == b5 && ByteAt(w, 6) == b6 && ByteAt(w, 7) == b7
  {
  }

  lemma {:induction false} BytesOfLe(b: seq<bv8>)
    requires |b| == 8
    ensures BytesOf(Le(b)) == b
  {
    hide Pack, ByteAt;
    PackLow(b[0], b[1], b[2], b[3], b[4], b[5], b[6], b[7]);
    PackHigh(b[0], b[1], b[2], b[3], b[4], b[5], b[6], b[7]);
  }

  // Bytes and numbers below 256 meet in their bits, lowest first.

  function Bit(on: bool, mask: bv8): bv8 { if on then mask else 0 }

  function ByteOfBits(p: seq<bool>): bv8
    requires |p| == 8
  {
    Bit(p[0], 1) | Bit(p[1], 2) | Bit(p[2], 4) | Bit(p[3], 8) | Bit(p[4], 16) | Bit(p[5], 32)
    | Bit(p[6], 64) | Bit(p[7], 128)
  }

  function BitsOfByte(b: bv8): seq<bool> {
    [b & 1 != 0, b & 2 != 0, b & 4 != 0, b & 8 != 0, b & 16 != 0, b & 32 != 0, b & 64 != 0, b & 128 != 0]
  }

  function BitsOfNat(n: nat, k: nat): (p: seq<bool>)
    ensures |p| == k
  {
    if k == 0 then [] else [n % 2 == 1] + BitsOfNat(n / 2, k - 1)
  }

  function NatOfBits(p: seq<bool>): nat { if p == [] then 0 else (if p[0] then 1 else 0) + 2 * NatOfBits(p[1..]) }

  function Byte(n: nat): bv8 { ByteOfBits(BitsOfNat(n, 8)) }

  function NatOf(b: bv8): nat { NatOfBits(BitsOfByte(b)) }

  lemma SingleBits(p0: bool, p1: bool, p2: bool, p3: bool, p4: bool, p5: bool, p6: bool, p7: bool)
    ensures var b := Bit(p0, 1) | Bit(p1, 2) | Bit(p2, 4) | Bit(p3, 8) | Bit(p4, 16) | Bit(p5, 32)
              | Bit(p6, 64) | Bit(p7, 128);
            && (b & 1 != 0) == p0 && (b & 2 != 0) == p1 && (b & 4 != 0) == p2 && (b & 8 != 0) == p3
            && (b & 16 != 0) == p4 && (b & 32 != 0) == p5 && (b & 64 != 0) == p6 && (b & 128 != 0) == p7
  {
  }

  lemma {:induction false} BitsRoundTrip(p: seq<bool>)
    requires |p| == 8
    ensures BitsOfByte(ByteOfBits(p)) == p
  {
    hide Bit;
    SingleBits(p[0], p[1], p[2], p[3], p[4], p[5], p[6], p[7]);
  }

  function Pow2(k: nat): nat { if k == 0 then 1 else 2 * Pow2(k - 1) }

  lemma {:induction false} BitsAddUp(n: nat, k: nat)
    requires n < Pow2(k)
    ensures NatOfBits(BitsOfNat(n, k)) == n
  {
    if k > 0 {
      BitsAddUp(n / 2, k - 1);
      assert BitsOfNat(n, k)[1..] == BitsOfNat(n / 2, k - 1);
    }
  }

  lemma {:induction false} ByteIsItself(n: nat)
    requires n < 256
    ensures NatOf(Byte(n)) == n
  {
    hide ByteOfBits, BitsOfByte;
    BitsRoundTrip(BitsOfNat(n, 8));
    assert Pow2(8) == 2 * (2 * (2 * (2 * (2 * (2 * (2 * (2 * Pow2(0))))))));
    BitsAddUp(n, 8);
  }

  /** The `k` low bytes of a number. */
  function Digits(n: nat, k: nat): (b: seq<bv8>)
    ensures |b| == k
  {
    if k == 0 then [] else [Byte(n % 256)] + Digits(n / 256, k - 1)
  }

  function ValueOf(b: seq<bv8>): nat {
    if b == [] then 0 else NatOf(b[0]) + 256 * ValueOf(b[1..])
  }

  function Pow256(k: nat): nat { if k == 0 then 1 else 256 * Pow256(k - 1) }

  lemma {:induction false} DigitsValue(n: nat, k: nat)
    requires n < Pow256(k)
    ensures ValueOf(Digits(n, k)) == n
  {
    if k > 0 {
      ByteIsItself(n % 256);
      DigitsValue(n / 256, k - 1);
      assert Digits(n, k)[1..] == Digits(n / 256, k - 1);
    }
  }

  /** A length as a word of its own. */
  function LengthWord(n: nat): bv64
    requires n < U64
  {
    Le(Digits(n, 8))
  }

  function LengthOf(w: bv64): nat { ValueOf(BytesOf(w)) }

  lemma {:induction false} LengthRoundTrip(n: nat)
    requires n < U64
    ensures LengthOf(LengthWord(n)) == n
  {
    BytesOfLe(Digits(n, 8));
    assert Pow256(8) == 256 * (256 * (256 * (256 * (256 * (256 * (256 * Pow256(1)))))));
    DigitsValue(n, 8);
  }

  // ----- The word stream

  const ZEROS: seq<bv8> := [0, 0, 0, 0, 0, 0, 0, 0]

  /** Eight bytes a word, the last one padded with zeros. */
  function Blocks(b: seq<bv8>): seq<bv64>
    decreases |b|
  {
    if b == [] then []
    else if |b| < 8 then [Le(b + ZEROS[|b|..])]
    else [Le(b[..8])] + Blocks(b[8..])
  }

  function FieldWords(b: Field): seq<bv64> { [LengthWord(|b|)] + Blocks(b) }

  function FieldsWords(fields: seq<Field>): seq<bv64> {
    if fields == [] then [] else FieldWords(fields[0]) + FieldsWords(fields[1..])
  }

  function ReasonBytes(r: bv32): Field {
    [(r & 0xFF) as bv8, ((r >> 8) & 0xFF) as bv8, ((r >> 16) & 0xFF) as bv8, ((r >> 24) & 0xFF) as bv8]
  }

  function Fields(a: Applied): seq<Field> {
    [a.flag, a.targetingKey, a.selector, a.assignmentId, a.variant, a.segment, a.rule, ReasonBytes(a.reason)]
  }

  function FallFields(falls: seq<Fall>): seq<Field> {
    if falls == [] then []
    else [falls[0].rule, falls[0].assignmentId, falls[0].targetingKey, falls[0].selector] + FallFields(falls[1..])
  }

  function KeyWords(a: Applied): seq<bv64> {
    FieldsWords(Fields(a)) + [LengthWord(|a.falls|)] + FieldsWords(FallFields(a.falls))
  }

  // ----- Reading a stream back

  function Unpack(words: seq<bv64>): seq<bv8> { if words == [] then [] else BytesOf(words[0]) + Unpack(words[1..]) }

  /** The field at the front of a stream, and what follows it. */
  function DecodeField(words: seq<bv64>): Option<(seq<bv8>, seq<bv64>)> {
    if words == [] then None
    else
      var len := LengthOf(words[0]);
      var blocks := (len + 7) / 8;
      if |words| < 1 + blocks then None
      else
        var bytes := Unpack(words[1..1 + blocks]);
        if |bytes| < len then None else Some((bytes[..len], words[1 + blocks..]))
  }

  lemma {:induction false} UnpackBlocks(b: seq<bv8>)
    ensures |Blocks(b)| == (|b| + 7) / 8
    ensures |b| <= |Unpack(Blocks(b))| && Unpack(Blocks(b))[..|b|] == b
    decreases |b|
  {
    if b == [] {
    } else if |b| < 8 {
      var padded := b + ZEROS[|b|..];
      BytesOfLe(padded);
      assert Blocks(b)[1..] == [];
      assert Unpack(Blocks(b)) == padded;
    } else {
      BytesOfLe(b[..8]);
      UnpackBlocks(b[8..]);
      assert Blocks(b)[1..] == Blocks(b[8..]);
      assert b == b[..8] + b[8..];
    }
  }

  /** A field is read back whole from the front of any stream. */
  lemma {:induction false} FieldRoundTrip(b: Field, rest: seq<bv64>)
    ensures DecodeField(FieldWords(b) + rest) == Some((b, rest))
  {
    hide Blocks, Unpack, LengthOf, LengthWord;
    var words, blocks := FieldWords(b) + rest, (|b| + 7) / 8;
    LengthRoundTrip(|b|);
    UnpackBlocks(b);
    assert words[0] == LengthWord(|b|);
    assert words[1..1 + blocks] == Blocks(b) && words[1 + blocks..] == rest;
  }

  lemma {:induction false} FieldPrefixFree(a: Field, b: Field, x: seq<bv64>, y: seq<bv64>)
    requires FieldWords(a) + x == FieldWords(b) + y
    ensures a == b && x == y
  {
    hide FieldWords, DecodeField;
    FieldRoundTrip(a, x);
    FieldRoundTrip(b, y);
  }

  lemma {:induction false} FieldsPrefixFree(a: seq<Field>, b: seq<Field>, x: seq<bv64>, y: seq<bv64>)
    requires |a| == |b| && FieldsWords(a) + x == FieldsWords(b) + y
    ensures a == b && x == y
    decreases |a|
  {
    hide FieldWords;
    if a == [] {
      assert FieldsWords(a) + x == x && FieldsWords(b) + y == y;
    } else {
      assert FieldsWords(a) + x == FieldWords(a[0]) + (FieldsWords(a[1..]) + x);
      assert FieldsWords(b) + y == FieldWords(b[0]) + (FieldsWords(b[1..]) + y);
      FieldPrefixFree(a[0], b[0], FieldsWords(a[1..]) + x, FieldsWords(b[1..]) + y);
      FieldsPrefixFree(a[1..], b[1..], x, y);
      assert a == [a[0]] + a[1..] && b == [b[0]] + b[1..];
    }
  }

  lemma {:induction false} FallFieldsTell(a: seq<Fall>, b: seq<Fall>)
    requires |a| == |b| && FallFields(a) == FallFields(b)
    ensures a == b
  {
    if a != [] {
      var f, g := FallFields(a), FallFields(b);
      assert f[0] == g[0] && f[1] == g[1] && f[2] == g[2] && f[3] == g[3] && f[4..] == g[4..];
      assert f[4..] == FallFields(a[1..]) && g[4..] == FallFields(b[1..]);
      FallFieldsTell(a[1..], b[1..]);
      assert a == [a[0]] + a[1..] && b == [b[0]] + b[1..];
    }
  }

  lemma {:induction false} FallFieldsLength(falls: seq<Fall>)
    ensures |FallFields(falls)| == 4 * |falls|
  {
    if falls != [] {
      FallFieldsLength(falls[1..]);
    }
  }

  lemma ReasonTells(r: bv32, s: bv32)
    requires ReasonBytes(r) == ReasonBytes(s)
    ensures r == s
  {
    var a, b := ReasonBytes(r), ReasonBytes(s);
    assert a[0] == b[0] && a[1] == b[1] && a[2] == b[2] && a[3] == b[3];
  }

  /** Distinct applies have distinct word streams, and no stream continues another. */
  lemma {:induction false} KeyWordsTell(a: Applied, b: Applied, x: seq<bv64>, y: seq<bv64>)
    requires KeyWords(a) + x == KeyWords(b) + y
    ensures a == b && x == y
  {
    hide FieldsWords, Blocks, LengthWord, ReasonBytes, FallFields;
    var tailA := [LengthWord(|a.falls|)] + (FieldsWords(FallFields(a.falls)) + x);
    var tailB := [LengthWord(|b.falls|)] + (FieldsWords(FallFields(b.falls)) + y);
    assert KeyWords(a) + x == FieldsWords(Fields(a)) + tailA;
    assert KeyWords(b) + y == FieldsWords(Fields(b)) + tailB;
    FieldsPrefixFree(Fields(a), Fields(b), tailA, tailB);
    assert tailA[0] == tailB[0] && tailA[1..] == tailB[1..];
    LengthRoundTrip(|a.falls|);
    LengthRoundTrip(|b.falls|);
    FallFieldsLength(a.falls);
    FallFieldsLength(b.falls);
    assert tailA[1..] == FieldsWords(FallFields(a.falls)) + x && tailB[1..] == FieldsWords(FallFields(b.falls)) + y;
    FieldsPrefixFree(FallFields(a.falls), FallFields(b.falls), x, y);
    FallFieldsTell(a.falls, b.falls);
    SameFields(a, b);
  }

  lemma SameFields(a: Applied, b: Applied)
    requires Fields(a) == Fields(b) && a.falls == b.falls
    ensures a == b
  {
    var f, g := Fields(a), Fields(b);
    assert f[0] == g[0] && f[1] == g[1] && f[2] == g[2] && f[3] == g[3] && f[4] == g[4] && f[5] == g[5] && f[6] == g[6]
        && f[7] == g[7];
    ReasonTells(a.reason, b.reason);
  }

  // ----- Mixing

  function HashInit(): bv64 { 0xCBF2_9CE4_8422_2325 }

  function Fold33(w: bv64): bv64 { w ^ (w >> 33) }

  function TimesC1(w: bv64): bv64 { w * 0xFF51_AFD7_ED55_8CCD }

  function TimesC2(w: bv64): bv64 { w * 0xC4CE_B9FE_1A85_EC53 }

  function TimesPrime(w: bv64): bv64 { w * 0x1000_0000_01B3 }

  function Rotated(w: bv64): bv64 { w.RotateLeft(27) }

  function Xor(a: bv64, b: bv64): bv64 { a ^ b }

  // The multipliers are odd, so each has an inverse modulo 2^64.

  function OverC1(w: bv64): bv64 { w * 0x4F74_430C_22A5_4005 }

  function OverC2(w: bv64): bv64 { w * 0x9CB4_B2F8_1293_37DB }

  function OverPrime(w: bv64): bv64 { w * 0xB46D_D957_AFF6_957B }

  function Unrotated(w: bv64): bv64 { w.RotateRight(27) }

  lemma C1Inverts(w: bv64)
    ensures OverC1(TimesC1(w)) == w && TimesC1(OverC1(w)) == w
  {
    calc {
      OverC1(TimesC1(w));
      OverC1(w * 0xFF51_AFD7_ED55_8CCD);
      (w * 0xFF51_AFD7_ED55_8CCD) * 0x4F74_430C_22A5_4005;
      w;
    }
    calc {
      TimesC1(OverC1(w));
      TimesC1(w * 0x4F74_430C_22A5_4005);
      (w * 0x4F74_430C_22A5_4005) * 0xFF51_AFD7_ED55_8CCD;
      w;
    }
  }

  lemma C2Inverts(w: bv64)
    ensures OverC2(TimesC2(w)) == w && TimesC2(OverC2(w)) == w
  {
    calc {
      OverC2(TimesC2(w));
      OverC2(w * 0xC4CE_B9FE_1A85_EC53);
      (w * 0xC4CE_B9FE_1A85_EC53) * 0x9CB4_B2F8_1293_37DB;
      w;
    }
    calc {
      TimesC2(OverC2(w));
      TimesC2(w * 0x9CB4_B2F8_1293_37DB);
      (w * 0x9CB4_B2F8_1293_37DB) * 0xC4CE_B9FE_1A85_EC53;
      w;
    }
  }

  lemma PrimeInverts(w: bv64)
    ensures OverPrime(TimesPrime(w)) == w && TimesPrime(OverPrime(w)) == w
  {
    calc {
      OverPrime(TimesPrime(w));
      OverPrime(w * 0x1000_0000_01B3);
      (w * 0x1000_0000_01B3) * 0xB46D_D957_AFF6_957B;
      w;
    }
    calc {
      TimesPrime(OverPrime(w));
      TimesPrime(w * 0xB46D_D957_AFF6_957B);
      (w * 0xB46D_D957_AFF6_957B) * 0x1000_0000_01B3;
      w;
    }
  }

  lemma FoldTwice(w: bv64)
    ensures Fold33(Fold33(w)) == w
  {
    calc {
      Fold33(Fold33(w));
      Fold33(w ^ (w >> 33));
      (w ^ (w >> 33)) ^ ((w ^ (w >> 33)) >> 33);
      w;
    }
  }

  lemma RotateBack(w: bv64)
    ensures Unrotated(Rotated(w)) == w && Rotated(Unrotated(w)) == w
  {
  }

  lemma XorTwice(a: bv64, b: bv64)
    ensures Xor(Xor(a, b), b) == a && Xor(a, Xor(a, b)) == b && Xor(a, Xor(b, a)) == b
  {
  }

  /** The murmur3 avalanche of one word, and the way back. */
  function Avalanche(w: bv64): bv64 { TimesC2(Fold33(TimesC1(w))) }

  function Unavalanche(k: bv64): bv64 { OverC1(Fold33(OverC2(k))) }

  function Mix(state: bv64, word: bv64): bv64 { TimesPrime(Rotated(Xor(state, Avalanche(word)))) }

  /** The state before a word, and the word between two states. */
  function StateBefore(after: bv64, word: bv64): bv64 { Xor(Unrotated(OverPrime(after)), Avalanche(word)) }

  function WordBetween(before: bv64, after: bv64): bv64 { Unavalanche(Xor(before, Unrotated(OverPrime(after)))) }

  function Finish(state: bv64): bv64 { Fold33(TimesC1(Fold33(state))) }

  function Unfinish(hash: bv64): bv64 { Fold33(OverC1(Fold33(hash))) }

  lemma {:induction false} AvalancheIsBijective(w: bv64)
    ensures Unavalanche(Avalanche(w)) == w && Avalanche(Unavalanche(w)) == w
  {
    hide Fold33, TimesC1, TimesC2, OverC1, OverC2;
    C1Inverts(w);
    FoldTwice(TimesC1(w));
    C2Inverts(Fold33(TimesC1(w)));
    C2Inverts(w);
    FoldTwice(OverC2(w));
    C1Inverts(Fold33(OverC2(w)));
  }

  /** For a fixed word, mixing permutes the states; for a fixed state, it permutes the words. */
  lemma {:induction false} MixIsBijective(state: bv64, word: bv64)
    ensures StateBefore(Mix(state, word), word) == state && Mix(StateBefore(state, word), word) == state
    ensures WordBetween(state, Mix(state, word)) == word && Mix(state, WordBetween(state, word)) == word
  {
    hide Avalanche, Unavalanche, Xor, Rotated, Unrotated, TimesPrime, OverPrime;
    var k, mixed, undone := Avalanche(word), Xor(state, Avalanche(word)), Unrotated(OverPrime(state));
    RotateBack(mixed);
    PrimeInverts(Rotated(mixed));
    XorTwice(state, k);
    AvalancheIsBijective(word);
    XorTwice(undone, k);
    RotateBack(OverPrime(state));
    PrimeInverts(state);
    var between := Unrotated(OverPrime(word));
    AvalancheIsBijective(Xor(state, between));
    XorTwice(state, between);
    RotateBack(OverPrime(word));
    PrimeInverts(word);
  }

  lemma {:induction false} FinishIsBijective(state: bv64)
    ensures Unfinish(Finish(state)) == state && Finish(Unfinish(state)) == state
  {
    hide Fold33, TimesC1, OverC1;
    FoldTwice(state);
    C1Inverts(Fold33(state));
    FoldTwice(TimesC1(Fold33(state)));
    FoldTwice(OverC1(Fold33(state)));
  }

  function MixAll(state: bv64, words: seq<bv64>): bv64
    decreases |words|
  {
    if words == [] then state else MixAll(Mix(state, words[0]), words[1..])
  }

  function HashOf(words: seq<bv64>): bv64 { Finish(MixAll(HashInit(), words)) }

  function DedupHash(a: Applied): bv64 { HashOf(KeyWords(a)) }

  lemma {:induction false} MixAllAppend(state: bv64, a: seq<bv64>, b: seq<bv64>)
    ensures MixAll(state, a + b) == MixAll(MixAll(state, a), b)
    decreases |a|
  {
    hide Mix;
    if a == [] {
      assert a + b == b;
    } else {
      assert (a + b)[0] == a[0] && (a + b)[1..] == a[1..] + b;
      MixAllAppend(Mix(state, a[0]), a[1..], b);
    }
  }

  /** Different states stay different under the same words. */
  lemma {:induction false} StatesStayApart(s: bv64, t: bv64, words: seq<bv64>)
    requires s != t
    ensures MixAll(s, words) != MixAll(t, words)
    decreases |words|
  {
    hide Mix, StateBefore, WordBetween;
    if words != [] {
      MixIsBijective(s, words[0]);
      MixIsBijective(t, words[0]);
      StatesStayApart(Mix(s, words[0]), Mix(t, words[0]), words[1..]);
    }
  }

  /** Streams that differ in exactly one word never share a hash. */
  lemma {:induction false} OneWordApart(before: seq<bv64>, v: bv64, w: bv64, after: seq<bv64>)
    requires v != w
    ensures HashOf(before + [v] + after) != HashOf(before + [w] + after)
  {
    hide Mix, StateBefore, WordBetween, Finish, Unfinish, HashInit;
    var state := MixAll(HashInit(), before);
    MixAllAppend(HashInit(), before, [v]);
    MixAllAppend(HashInit(), before, [w]);
    MixAllAppend(HashInit(), before + [v], after);
    MixAllAppend(HashInit(), before + [w], after);
    MixOne(state, v);
    MixOne(state, w);
    MixIsBijective(state, v);
    MixIsBijective(state, w);
    StatesStayApart(Mix(state, v), Mix(state, w), after);
    FinishIsBijective(MixAll(Mix(state, v), after));
    FinishIsBijective(MixAll(Mix(state, w), after));
  }

  lemma MixOne(state: bv64, w: bv64)
    ensures MixAll(state, [w]) == Mix(state, w)
  {
    hide Mix;
    assert [w][1..] == [];
    assert MixAll(Mix(state, w), []) == Mix(state, w);
  }

  lemma {:induction false} FieldsWordsAppend(a: seq<Field>, b: seq<Field>)
    ensures FieldsWords(a + b) == FieldsWords(a) + FieldsWords(b)
    decreases |a|
  {
    hide FieldWords;
    if a == [] {
      assert a + b == b;
    } else {
      assert (a + b)[1..] == a[1..] + b;
      FieldsWordsAppend(a[1..], b);
    }
  }

  /** One field as two words: its length, and its content where that fits a block. */
  lemma {:induction false} ShortField(b: Field)
    requires 0 < |b| < 8
    ensures FieldWords(b) == [LengthWord(|b|)] + [Le(b + ZEROS[|b|..])]
  {
  }

  function BeforeReason(a: Applied): seq<bv64> {
    FieldsWords([a.flag, a.targetingKey, a.selector, a.assignmentId, a.variant, a.segment, a.rule]) + [LengthWord(4)]
  }

  function AfterReason(a: Applied): seq<bv64> { [LengthWord(|a.falls|)] + FieldsWords(FallFields(a.falls)) }

  lemma {:induction false} ReasonIsOneWord(a: Applied)
    ensures KeyWords(a) == BeforeReason(a) + [ReasonWord(a.reason)] + AfterReason(a)
  {
    hide FieldsWords, LengthWord, ReasonBytes, ReasonWord, FallFields;
    var same := [a.flag, a.targetingKey, a.selector, a.assignmentId, a.variant, a.segment, a.rule];
    assert Fields(a) == same + [ReasonBytes(a.reason)];
    FieldsWordsAppend(same, [ReasonBytes(a.reason)]);
    ReasonField(a.reason);
  }

  /** Applies that differ in their reason only always have different hashes. */
  lemma {:induction false} ReasonsApart(a: Applied, reason: bv32)
    requires reason != a.reason
    ensures DedupHash(a) != DedupHash(a.(reason := reason))
  {
    hide FieldsWords, LengthWord, ReasonWord, HashOf, FallFields, KeyWords;
    var b := a.(reason := reason);
    ReasonIsOneWord(a);
    ReasonIsOneWord(b);
    ReasonWordTells(a.reason, reason);
    OneWordApart(BeforeReason(a), ReasonWord(a.reason), ReasonWord(reason), AfterReason(a));
  }

  lemma ReasonsDiffer(r: bv32, s: bv32)
    requires r != s
    ensures ReasonBytes(r) != ReasonBytes(s)
  {
    if ReasonBytes(r) == ReasonBytes(s) {
      ReasonTells(r, s);
    }
  }

  function ReasonWord(r: bv32): bv64 { Le(ReasonBytes(r) + ZEROS[4..]) }

  lemma ReasonWordTells(r: bv32, s: bv32)
    requires r != s
    ensures ReasonWord(r) != ReasonWord(s)
  {
    hide Le;
    var x, y := ReasonBytes(r) + ZEROS[4..], ReasonBytes(s) + ZEROS[4..];
    BytesOfLe(x);
    BytesOfLe(y);
    assert x[..4] == ReasonBytes(r) && y[..4] == ReasonBytes(s);
    assert ReasonBytes(r) != ReasonBytes(s) by { ReasonsDiffer(r, s); }
  }

  lemma ReasonField(r: bv32)
    ensures FieldsWords([ReasonBytes(r)]) == [LengthWord(4)] + [ReasonWord(r)]
  {
    var b := ReasonBytes(r);
    ShortField(b);
    assert [b][1..] == [] && FieldsWords([]) == [];
    assert FieldsWords([b]) == FieldWords(b) + [];
  }

  // ----- The hasher as it runs

  class DedupHasher {
    var state: bv64

    constructor ()
      ensures state == HashInit()
    {
      state := HashInit();
    }

    method MixWord(word: bv64)
      modifies this
      ensures state == MixAll(old(state), [word])
    {
      MixOne(state, word);
      state := Mix(state, word);
    }

    method Write(b: Field)
      modifies this
      ensures state == MixAll(old(state), FieldWords(b))
    {
      hide Mix, LengthWord, Le;
      MixAllAppend(state, [LengthWord(|b|)], Blocks(b));
      MixWord(LengthWord(|b|));
      var i: nat := 0;
      assert b[0..] == b;
      while i + 8 <= |b|
        invariant i <= |b|
        invariant MixAll(state, Blocks(b[i..])) == MixAll(old(state), FieldWords(b))
      {
        var word := Le(b[i..i + 8]);
        assert b[i..][..8] == b[i..i + 8] && b[i..][8..] == b[i + 8..];
        MixAllAppend(state, [word], Blocks(b[i + 8..]));
        MixWord(word);
        i := i + 8;
      }
      if i < |b| {
        MixWord(Le(b[i..] + ZEROS[|b| - i..]));
      }
    }

    method WriteAll(fields: seq<Field>)
      modifies this
      ensures state == MixAll(old(state), FieldsWords(fields))
    {
      hide Mix, FieldWords;
      var i := 0;
      while i < |fields|
        invariant i <= |fields|
        invariant MixAll(state, FieldsWords(fields[i..])) == MixAll(old(state), FieldsWords(fields))
      {
        assert fields[i..][1..] == fields[i + 1..];
        MixAllAppend(state, FieldWords(fields[i]), FieldsWords(fields[i + 1..]));
        Write(fields[i]);
        i := i + 1;
      }
    }
  }

  method ComputeDedupHash(a: Applied) returns (hash: bv64)
    ensures hash == DedupHash(a)
  {
    hide Mix, Finish, FieldsWords, LengthWord, HashInit, Fields, FallFields, MixAll;
    var h := new DedupHasher();
    var count := [LengthWord(|a.falls|)];
    MixAllAppend(HashInit(), FieldsWords(Fields(a)), count);
    MixAllAppend(HashInit(), FieldsWords(Fields(a)) + count, FieldsWords(FallFields(a.falls)));
    h.WriteAll(Fields(a));
    h.MixWord(count[0]);
    h.WriteAll(FallFields(a.falls));
    hash := Finish(h.state);
  }

  // ----- The same key from the logged event

  const UNSPECIFIED: bv32 := 0
  const MATCH: bv32 := 1
  const NO_SEGMENT_MATCH: bv32 := 2
  const NO_TREATMENT_MATCH: bv32 := 3
  const FLAG_ARCHIVED: bv32 := 4

  datatype DefaultReason = DefaultUnspecified | NoSegmentMatch | NoTreatmentMatch | FlagArchived

  datatype EventAssignment = AssignmentInfo(segment: Field, variant: Field) | DefaultAssignment(reason: DefaultReason)

  /** What the log keeps of an apply's outcome. */
  function EventAssignmentOf(a: Applied): EventAssignment {
    if a.variant != [] then AssignmentInfo(a.segment, a.variant)
    else DefaultAssignment(
      if a.reason == NO_SEGMENT_MATCH then NoSegmentMatch
      else if a.reason == NO_TREATMENT_MATCH then NoTreatmentMatch
      else if a.reason == FLAG_ARCHIVED then FlagArchived
      else DefaultUnspecified)
  }

  /** The identity a consumer of the event rebuilds. */
  function FromEvent(a: Applied): Applied {
    match EventAssignmentOf(a)
    case AssignmentInfo(segment, variant) => a.(variant := variant, segment := segment, reason := MATCH)
    case DefaultAssignment(reason) =>
      a.(variant := [], segment := [],
         reason := match reason
                   case NoSegmentMatch => NO_SEGMENT_MATCH
                   case NoTreatmentMatch => NO_TREATMENT_MATCH
                   case FlagArchived => FLAG_ARCHIVED
                   case DefaultUnspecified => UNSPECIFIED)
  }

  /**
   The event gives the key of the apply itself exactly for matches with a variant and for defaults without a segment
   whose reason the event can name. (A match on the client default, which has a segment and no variant, is keyed anew.)
   */
  lemma {:induction false} EventKeepsKey(a: Applied)
    ensures KeyWords(FromEvent(a)) == KeyWords(a) <==>
            if a.variant != [] then a.reason == MATCH
            else a.segment == [] && a.reason in {UNSPECIFIED, NO_SEGMENT_MATCH, NO_TREATMENT_MATCH, FLAG_ARCHIVED}
    ensures FromEvent(FromEvent(a)) == FromEvent(a)
  {
    hide KeyWords;
    assert KeyWords(a) + [] == KeyWords(a) && KeyWords(FromEvent(a)) + [] == KeyWords(FromEvent(a));
    if KeyWords(FromEvent(a)) == KeyWords(a) {
      KeyWordsTell(FromEvent(a), a, [], []);
    }
  }
}
