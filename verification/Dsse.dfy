/** dsse.rs: the pre-authentication encoding that DSSE signatures cover. */
module Dsse {
  import opened Prelude
  import opened Decimal

  const SPACE: Byte := 32
  const TAG: Bytes := [68, 83, 83, 69, 118, 49]  // "DSSEv1"

  /** A length in decimal, a space, and the bytes themselves. */
  function Prefixed(data: Bytes): Bytes {
    Dec(|data|) + ([SPACE] + data)
  }

  /** `DSSEv1 <len(type)> <type> <len(body)> <body>`. */
  function Encoding(payloadType: Bytes, payload: Bytes): Bytes {
    TAG + ([SPACE] + (Prefixed(payloadType) + ([SPACE] + Prefixed(payload))))
  }

  method Pae(payloadType: Bytes, payload: Bytes) returns (result: Bytes)
    ensures result == Encoding(payloadType, payload)
    ensures result == [68, 83, 83, 69, 118, 49, 32] + Dec(|payloadType|) + [32] + payloadType + [32] +
                      Dec(|payload|) + [32] + payload
  {
    result := [];
    result := result + (TAG + [SPACE]);
    result := result + (Dec(|payloadType|) + [SPACE]);
    result := result + payloadType;
    result := result + [SPACE];
    result := result + (Dec(|payload|) + [SPACE]);
    result := result + payload;
    EncodingInBytes(payloadType, payload);
  }

  /** The encoding as one row of bytes, "DSSEv1" and the spaces included. */
  lemma {:induction false} EncodingInBytes(payloadType: Bytes, payload: Bytes)
    ensures Encoding(payloadType, payload) ==
            [68, 83, 83, 69, 118, 49, 32] + Dec(|payloadType|) + [32] + payloadType + [32] +
            Dec(|payload|) + [32] + payload
  {
    assert TAG + [SPACE] == [68, 83, 83, 69, 118, 49, 32];
  }

  /** A length-prefixed field ends where its length says, whatever follows. */
  lemma {:induction false} PrefixedUnambiguous(a: Bytes, s: Bytes, b: Bytes, t: Bytes)
    requires Prefixed(a) + s == Prefixed(b) + t
    ensures a == b && s == t
  {
    var x, y := [SPACE] + a, [SPACE] + b;
    assert Prefixed(a) + s == Dec(|a|) + (x + s);
    assert Prefixed(b) + t == Dec(|b|) + (y + t);
    assert (x + s)[0] == SPACE && (y + t)[0] == SPACE;
    DecUnambiguous(|a|, x + s, |b|, y + t);
    assert x == (x + s)[..|x|] && y == (y + t)[..|y|];
    assert s == (x + s)[|x|..] && t == (y + t)[|y|..];
    assert a == x[1..] && b == y[1..];
  }

  /** Equal encodings have the same payload type and the same payload. */
  lemma {:induction false} EncodingInjective(type1: Bytes, body1: Bytes, type2: Bytes, body2: Bytes)
    requires Encoding(type1, body1) == Encoding(type2, body2)
    ensures type1 == type2 && body1 == body2
  {
    var rest1 := Prefixed(type1) + ([SPACE] + Prefixed(body1));
    var rest2 := Prefixed(type2) + ([SPACE] + Prefixed(body2));
    assert rest1 == Encoding(type1, body1)[7..] && rest2 == Encoding(type2, body2)[7..];
    PrefixedUnambiguous(type1, [SPACE] + Prefixed(body1), type2, [SPACE] + Prefixed(body2));
    assert Prefixed(body1) == ([SPACE] + Prefixed(body1))[1..];
    assert Prefixed(body2) == ([SPACE] + Prefixed(body2))[1..];
    assert Prefixed(body1) + [] == Prefixed(body1) && Prefixed(body2) + [] == Prefixed(body2);
    PrefixedUnambiguous(body1, [], body2, []);
  }
}
