/** The standard base64 encoding, with padding: section 4 of RFC 4648. */
module Base64 {
  import opened Prelude

  function Letter(n: nat): char
    requires n < 64
  {
    if n < 26 then (65 + n) as char
    else if n < 52 then (71 + n) as char
    else if n < 62 then (n - 4) as char
    else if n == 62 then '+'
    else '/'
  }

  /** The value of a letter, or 64. */
  function Sextet(c: char): (n: nat)
    ensures n <= 64
  {
    if 'A' <= c <= 'Z' then c as int - 65
    else if 'a' <= c <= 'z' then c as int - 71
    else if '0' <= c <= '9' then c as int + 4
    else if c == '+' then 62
    else if c == '/' then 63
    else 64
  }

  lemma {:induction false} SextetOfLetter(n: nat)
    requires n < 64
    ensures Sextet(Letter(n)) == n
  {
  }

  lemma {:induction false} LetterOfSextet(c: char)
    ensures Sextet(c) < 64 ==> Letter(Sextet(c)) == c
  {
  }

  lemma {:induction false} PaddingIsNoLetter()
    ensures Sextet('=') == 64
  {
  }

  lemma {:induction false} LettersOfSextets(s: string)
    requires |s| >= 4
    ensures forall k :: 0 <= k < 4 && Sextet(s[k]) < 64 ==> Letter(Sextet(s[k])) == s[k]
  {
    LetterOfSextet(s[0]);
    LetterOfSextet(s[1]);
    LetterOfSextet(s[2]);
    LetterOfSextet(s[3]);
  }

  function Three(a: Byte, b: Byte, c: Byte): (s: string)
    ensures |s| == 4
  {
    var (x, y, z) := (a as int, b as int, c as int);
    [Letter(x / 4), Letter(x % 4 * 16 + y / 16), Letter(y % 16 * 4 + z / 64), Letter(z % 64)]
  }

  function Two(a: Byte, b: Byte): (s: string)
    ensures |s| == 4
  {
    var (x, y) := (a as int, b as int);
    [Letter(x / 4), Letter(x % 4 * 16 + y / 16), Letter(y % 16 * 4), '=']
  }

  function One(a: Byte): (s: string)
    ensures |s| == 4
  {
    [Letter(a as int / 4), Letter(a as int % 4 * 16), '=', '=']
  }

  function Encode(b: Bytes): (s: string)
    ensures b == [] <==> s == ""
  {
    if |b| == 0 then ""
    else if |b| == 1 then One(b[0])
    else if |b| == 2 then Two(b[0], b[1])
    else Three(b[0], b[1], b[2]) + Encode(b[3..])
  }

  /** Four characters at the end of the text, which may be padded. */
  function LastGroup(s: string): Option<Bytes>
    requires |s| == 4
  {
    var (p, q, r, t) := (Sextet(s[0]), Sextet(s[1]), Sextet(s[2]), Sextet(s[3]));
    if p == 64 || q == 64 then None
    else if s[2] == '=' && s[3] == '=' then
      if q % 16 == 0 then Some([(p * 4 + q / 16) as Byte]) else None
    else if r == 64 then None
    else if s[3] == '=' then
      if r % 4 == 0 then Some([(p * 4 + q / 16) as Byte, (q % 16 * 16 + r / 4) as Byte]) else None
    else if t == 64 then None
    else Some(Triple(p, q, r, t))
  }

  function Triple(p: nat, q: nat, r: nat, t: nat): (b: Bytes)
    requires p < 64 && q < 64 && r < 64 && t < 64
    ensures |b| == 3
  {
    [(p * 4 + q / 16) as Byte, (q % 16 * 16 + r / 4) as Byte, (r % 4 * 64 + t) as Byte]
  }

  /** Padding belongs at the end only, and unused bits are zero. */
  function Decode(s: string): Option<Bytes> {
    if |s| == 0 then Some([])
    else if |s| < 4 then None
    else if |s| == 4 then LastGroup(s)
    else
      var (p, q, r, t) := (Sextet(s[0]), Sextet(s[1]), Sextet(s[2]), Sextet(s[3]));
      if p == 64 || q == 64 || r == 64 || t == 64 then None
      else
        match Decode(s[4..])
        case None => None
        case Some(rest) => Some(Triple(p, q, r, t) + rest)
  }

  /** Six bits of each sextet, eight of each byte. */
  lemma {:induction false} BytesOfSextets(x: nat, y: nat, z: nat)
    requires x < 256 && y < 256 && z < 256
    ensures var (p, q, r, t) := (x / 4, x % 4 * 16 + y / 16, y % 16 * 4 + z / 64, z % 64);
            p < 64 && q < 64 && r < 64 && t < 64 &&
            p * 4 + q / 16 == x && q % 16 * 16 + r / 4 == y && r % 4 * 64 + t == z
  {
  }

  lemma {:induction false} SextetsOfBytes(p: nat, q: nat, r: nat, t: nat)
    requires p < 64 && q < 64 && r < 64 && t < 64
    ensures var (x, y, z) := (p * 4 + q / 16, q % 16 * 16 + r / 4, r % 4 * 64 + t);
            x / 4 == p && x % 4 * 16 + y / 16 == q && y % 16 * 4 + z / 64 == r && z % 64 == t
  {
  }

  lemma {:induction false} LettersOfThree(a: Byte, b: Byte, c: Byte)
    ensures var s := Three(a, b, c);
            var (p, q, r, t) := (Sextet(s[0]), Sextet(s[1]), Sextet(s[2]), Sextet(s[3]));
            p < 64 && q < 64 && r < 64 && t < 64 && Triple(p, q, r, t) == [a, b, c]
  {
    hide Letter, Sextet;
    var (x, y, z) := (a as int, b as int, c as int);
    BytesOfSextets(x, y, z);
    SextetOfLetter(x / 4);
    SextetOfLetter(x % 4 * 16 + y / 16);
    SextetOfLetter(y % 16 * 4 + z / 64);
    SextetOfLetter(z % 64);
  }

  lemma {:induction false} DecodeOne(a: Byte)
    ensures LastGroup(One(a)) == Some([a])
  {
    hide Letter, Sextet;
    PaddingIsNoLetter();
    var x := a as int;
    BytesOfSextets(x, 0, 0);
    SextetOfLetter(x / 4);
    SextetOfLetter(x % 4 * 16);
  }

  lemma {:induction false} DecodeTwo(a: Byte, b: Byte)
    ensures LastGroup(Two(a, b)) == Some([a, b])
  {
    hide Letter, Sextet;
    PaddingIsNoLetter();
    var (x, y) := (a as int, b as int);
    BytesOfSextets(x, y, 0);
    SextetOfLetter(x / 4);
    SextetOfLetter(x % 4 * 16 + y / 16);
    SextetOfLetter(y % 16 * 4);
  }

  lemma {:induction false} DecodeThree(a: Byte, b: Byte, c: Byte)
    ensures LastGroup(Three(a, b, c)) == Some([a, b, c])
  {
    hide Letter, Sextet, Triple, Three;
    PaddingIsNoLetter();
    LettersOfThree(a, b, c);
  }

  lemma {:induction false} DecodeEncode(b: Bytes)
    ensures Decode(Encode(b)) == Some(b)
  {
    hide LastGroup, Triple, Three, One, Two, Sextet;
    if |b| == 1 {
      DecodeOne(b[0]);
      assert b == [b[0]];
    } else if |b| == 2 {
      DecodeTwo(b[0], b[1]);
      assert b == [b[0], b[1]];
    } else if |b| > 2 {
      var first, rest := Three(b[0], b[1], b[2]), Encode(b[3..]);
      assert b == [b[0], b[1], b[2]] + b[3..];
      DecodeEncode(b[3..]);
      DecodeGroup(b[0], b[1], b[2], rest);
    }
  }

  lemma {:induction false} DecodeGroup(a: Byte, b: Byte, c: Byte, rest: string)
    requires Decode(rest).Some?
    ensures Decode(Three(a, b, c) + rest) == Some([a, b, c] + Decode(rest).value)
  {
    hide LastGroup, Triple, Sextet;
    var first := Three(a, b, c);
    if rest == "" {
      assert first + rest == first && [a, b, c] + [] == [a, b, c];
      DecodeThree(a, b, c);
    } else {
      LettersOfThree(a, b, c);
      assert (first + rest)[4..] == rest;
      assert forall k :: 0 <= k < 4 ==> (first + rest)[k] == first[k];
    }
  }

  lemma {:induction false} ThreeOfTriple(p: nat, q: nat, r: nat, t: nat)
    requires p < 64 && q < 64 && r < 64 && t < 64
    ensures var b := Triple(p, q, r, t); Three(b[0], b[1], b[2]) == [Letter(p), Letter(q), Letter(r), Letter(t)]
  {
    hide Letter;
    SextetsOfBytes(p, q, r, t);
  }

  lemma {:induction false} EncodeLastGroup(s: string)
    requires |s| == 4 && LastGroup(s).Some?
    ensures Encode(LastGroup(s).value) == s
  {
    hide Letter, Sextet, Triple;
    PaddingIsNoLetter();
    LettersOfSextets(s);
    var (p, q, r, t) := (Sextet(s[0]), Sextet(s[1]), Sextet(s[2]), Sextet(s[3]));
    var b := LastGroup(s).value;
    if s[2] == '=' {
      SextetsOfBytes(p, q, 0, 0);
      assert Encode(b) == s;
    } else if s[3] == '=' {
      SextetsOfBytes(p, q, r, 0);
      assert Encode(b) == s;
    } else {
      ThreeOfTriple(p, q, r, t);
      assert Encode(b[3..]) == "";
      assert Three(b[0], b[1], b[2]) + "" == s;
    }
  }

  /** Only one text stands for each value. */
  lemma {:induction false} EncodeDecode(s: string)
    requires Decode(s).Some?
    ensures Encode(Decode(s).value) == s
  {
    hide Sextet, Letter, Triple, Three, One, Two, LastGroup;
    if |s| == 4 {
      EncodeLastGroup(s);
    } else if |s| > 4 {
      LettersOfSextets(s);
      EncodeDecode(s[4..]);
      ThreeOfTriple(Sextet(s[0]), Sextet(s[1]), Sextet(s[2]), Sextet(s[3]));
      var b, rest := Decode(s).value, Decode(s[4..]).value;
      assert |b| > 2 && b[3..] == rest;
      assert s == s[..4] + s[4..];
    }
  }

  lemma {:induction false} EncodedLetters(b: Bytes)
    ensures forall c :: c in Encode(b) ==> c == '=' || Sextet(c) < 64
  {
    if |b| > 2 {
      EncodedLetters(b[3..]);
    }
  }

  // ----- Against the text of RFC 4648

  /** Table 1 of the standard. */
  lemma {:induction false} Alphabet(n: nat)
    requires n < 64
    ensures n < 26 ==> Letter(n) as int == 'A' as int + n
    ensures 26 <= n < 52 ==> Letter(n) as int == 'a' as int + (n - 26)
    ensures 52 <= n < 62 ==> Letter(n) as int == '0' as int + (n - 52)
    ensures n == 62 ==> Letter(n) == '+'
    ensures n == 63 ==> Letter(n) == '/'
  {
  }

  /** The four letters are the base-64 digits of the 24 bits. */
  lemma {:induction false} GroupValue(a: Byte, b: Byte, c: Byte)
    ensures var s := Encode([a, b, c]);
            |s| == 4 && Sextet(s[0]) * 262144 + Sextet(s[1]) * 4096 + Sextet(s[2]) * 64 + Sextet(s[3]) ==
                        a as int * 65536 + b as int * 256 + c as int
  {
    hide Sextet, Letter;
    LettersOfThree(a, b, c);
    assert [a, b, c][3..] == [] && Three(a, b, c) + "" == Three(a, b, c);
  }

  lemma {:induction false} FirstVectors()
    ensures One(102) == "Zg==" && Two(102, 111) == "Zm8="
    ensures Three(102, 111, 111) == "Zm9v" && Three(98, 97, 114) == "YmFy"
  {
  }

  /** The test vectors of section 10. */
  lemma {:induction false} TestVectors()
    ensures Encode([]) == "" && Encode([102]) == "Zg==" && Encode([102, 111]) == "Zm8="
    ensures Encode([102, 111, 111]) == "Zm9v" && Encode([102, 111, 111, 98, 97, 114]) == "Zm9vYmFy"
  {
    hide Letter;
    FirstVectors();
    assert [102 as Byte, 111, 111][3..] == [] && [102 as Byte, 111, 111, 98, 97, 114][3..] == [98, 97, 114];
    assert [98 as Byte, 97, 114][3..] == [] && Encode([98, 97, 114]) == Three(98, 97, 114);
    assert Encode([102, 111, 111]) == Three(102, 111, 111);
  }
}
