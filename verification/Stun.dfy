/** The recogniser of STUN headers (stun.h), against the header layout of section 6 of RFC 5389. */
module Stun {
  import opened Prelude

  datatype StunClass = Request | Indication | SuccessResp | ErrorResp

  datatype StunInfo = StunInfo(klass: StunClass, txid: Bytes)

  const HEADER: nat := 20

  function ClassOf(c1: bv16, c0: bv16): StunClass {
    if c1 == 0 then (if c0 == 0 then Request else Indication) else if c0 == 0 then SuccessResp else ErrorResp
  }

  /** The length field, two bytes in network order. */
  function Length(hi: Byte, lo: Byte): nat { Num(hi) * 256 + Num(lo) }

  function StunParse(b: Bytes): (info: Option<StunInfo>) {
    if |b| < HEADER then None
    else if b[0] & 0xC0 != 0 then None
    else if ((b[4] as bv32) << 24) | ((b[5] as bv32) << 16) | ((b[6] as bv32) << 8) | (b[7] as bv32)
            != 0x2112A442 then None
    else
      var msgLen := Length(b[2], b[3]);
      if msgLen % 4 != 0 then None
      else if msgLen + HEADER != |b| then None
      else
        var typ := ((b[0] as bv16) << 8) | (b[1] as bv16);
        Some(StunInfo(ClassOf((typ >> 8) & 1, (typ >> 4) & 1), b[8..20]))
  }

  // ---- the layout ----

  function C1(k: StunClass): bv16 { if k == SuccessResp || k == ErrorResp then 1 else 0 }

  function C0(k: StunClass): bv16 { if k == Indication || k == ErrorResp then 1 else 0 }

  /** Method bits M11..M0 interleaved with class bits C1 and C0. */
  function MessageType(k: StunClass, m: bv16): bv16 {
    ((m & 0xF80) << 2) | (C1(k) << 8) | ((m & 0x70) << 1) | (C0(k) << 4) | (m & 0xF)
  }

  function Hi(x: bv16): Byte { (x >> 8) as bv8 }

  function Lo(x: bv16): Byte { (x & 0xFF) as bv8 }

  const COOKIE: Bytes := [0x21, 0x12, 0xA4, 0x42]

  ghost predicate IsMessage(k: StunClass, m: bv16, txid: Bytes, body: Bytes) {
    m < 0x1000 && |txid| == 12 && |body| % 4 == 0 && |body| <= 65532
  }

  function Assembled(hi: Byte, lo: Byte, txid: Bytes, body: Bytes): Bytes
    requires |body| < 0x10000
  {
    [hi, lo, ByteOf(|body| / 256), ByteOf(|body| % 256)] + COOKIE + txid + body
  }

  function Encode(k: StunClass, m: bv16, txid: Bytes, body: Bytes): Bytes
    requires |body| < 0x10000
  {
    Assembled(Hi(MessageType(k, m)), Lo(MessageType(k, m)), txid, body)
  }

  // ---- bit lemmas ----

  lemma TypeClass(k: StunClass, m: bv16)
    requires m < 0x1000
    ensures (MessageType(k, m) >> 8) & 1 == C1(k) && (MessageType(k, m) >> 4) & 1 == C0(k)
  {
  }

  lemma TypeHigh(k: StunClass, m: bv16)
    requires m < 0x1000
    ensures MessageType(k, m) < 0x4000
  {
  }

  lemma Bytes16(t: bv16)
    requires t < 0x4000
    ensures Hi(t) & 0xC0 == 0 && ((Hi(t) as bv16) << 8) | (Lo(t) as bv16) == t
  {
  }

  lemma TypeBits(k: StunClass, m: bv16)
    requires m < 0x1000
    ensures var t := MessageType(k, m);
            && Hi(t) & 0xC0 == 0
            && ((Hi(t) as bv16) << 8) | (Lo(t) as bv16) == t
            && ClassOf((t >> 8) & 1, (t >> 4) & 1) == k
  {
    hide MessageType, Hi, Lo;
    TypeClass(k, m);
    TypeHigh(k, m);
    Bytes16(MessageType(k, m));
  }

  function MethodOf(t: bv16): bv16 { ((t >> 2) & 0xF80) | ((t >> 1) & 0x70) | (t & 0xF) }

  lemma TypeInverse(hi: Byte, lo: Byte)
    requires hi & 0xC0 == 0
    ensures var t := ((hi as bv16) << 8) | (lo as bv16);
            && MethodOf(t) < 0x1000
            && MessageType(ClassOf((t >> 8) & 1, (t >> 4) & 1), MethodOf(t)) == t
            && Hi(t) == hi && Lo(t) == lo
  {}

  lemma CookieBytes(b4: Byte, b5: Byte, b6: Byte, b7: Byte)
    ensures ((b4 as bv32) << 24) | ((b5 as bv32) << 16) | ((b6 as bv32) << 8) | (b7 as bv32) == 0x2112A442
       <==> b4 == 0x21 && b5 == 0x12 && b6 == 0xA4 && b7 == 0x42
  {}

  lemma LengthBytes(n: nat)
    requires n < 0x10000
    ensures Length(ByteOf(n / 256), ByteOf(n % 256)) == n
  {
    hide Num, ByteOf;
  }

  lemma LengthInverse(hi: Byte, lo: Byte)
    ensures var n := Length(hi, lo); n < 0x10000 && ByteOf(n / 256) == hi && ByteOf(n % 256) == lo
  {
    hide Num, ByteOf;
    var n := Length(hi, lo);
    NumUnique(ByteOf(n / 256), hi);
    NumUnique(ByteOf(n % 256), lo);
  }

  // ---- the theorem ----

  lemma ParseOfEncode(k: StunClass, m: bv16, txid: Bytes, body: Bytes)
    requires IsMessage(k, m, txid, body)
    ensures StunParse(Encode(k, m, txid, body)) == Some(StunInfo(k, txid))
  {
    var b := Encode(k, m, txid, body);
    TypeBits(k, m);
    CookieBytes(b[4], b[5], b[6], b[7]);
    LengthBytes(|body|);
    assert b[8..20] == txid;
  }

  lemma Split<T>(b: seq<T>)
    requires |b| >= HEADER
    ensures b == [b[0], b[1], b[2], b[3]] + b[4..8] + b[8..20] + b[20..]
  {}

  lemma Reassemble(b: Bytes)
    requires |b| >= HEADER && b[4..8] == COOKIE && Length(b[2], b[3]) == |b| - HEADER
    ensures |b[20..]| < 0x10000 && b == Assembled(b[0], b[1], b[8..20], b[20..])
  {
    LengthInverse(b[2], b[3]);
    Split(b);
  }

  function MethodIn(b: Bytes): bv16
    requires |b| >= 2
  {
    MethodOf(((b[0] as bv16) << 8) | (b[1] as bv16))
  }

  lemma TypeBytes(b: Bytes, k: StunClass)
    requires |b| >= 2 && b[0] & 0xC0 == 0
    requires var t := ((b[0] as bv16) << 8) | (b[1] as bv16); k == ClassOf((t >> 8) & 1, (t >> 4) & 1)
    ensures var t := MessageType(k, MethodIn(b)); MethodIn(b) < 0x1000 && Hi(t) == b[0] && Lo(t) == b[1]
  {
    TypeInverse(b[0], b[1]);
  }

  lemma EncodeOfParse(b: Bytes)
    requires StunParse(b).Some?
    ensures var info := StunParse(b).value;
            && IsMessage(info.klass, MethodIn(b), info.txid, b[20..])
            && b == Encode(info.klass, MethodIn(b), info.txid, b[20..])
  {
    hide Num, ByteOf, Length, Assembled, MessageType, MethodIn, ClassOf, Hi, Lo;
    var info := StunParse(b).value;
    TypeBytes(b, info.klass);
    CookieBytes(b[4], b[5], b[6], b[7]);
    assert b[4..8] == COOKIE;
    Reassemble(b);
  }

  /**
   * A buffer is recognised, with a given class and transaction id, exactly when it is a message of that
   * class and transaction id for some 12-bit method and some 4-aligned body.
   */
  lemma ParseExactlyEncodings(b: Bytes, k: StunClass, txid: Bytes)
    ensures StunParse(b) == Some(StunInfo(k, txid)) <==>
            exists m: bv16, body: Bytes :: IsMessage(k, m, txid, body) && b == Encode(k, m, txid, body)
  {
    if StunParse(b) == Some(StunInfo(k, txid)) {
      EncodeOfParse(b);
    }
    forall m: bv16, body: Bytes | IsMessage(k, m, txid, body) && b == Encode(k, m, txid, body)
      ensures StunParse(b) == Some(StunInfo(k, txid))
    {
      ParseOfEncode(k, m, txid, body);
    }
  }
}
