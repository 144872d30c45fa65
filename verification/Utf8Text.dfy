/** UTF-8, as RFC 3629 defines it. */
module Utf8Text {
  import opened Prelude

  function Utf8Char(c: char): (b: Bytes) {
    var n := c as int;
    if n < 0x80 then [n as Byte]
    else if n < 0x800 then [(0xC0 + n / 64) as Byte, (0x80 + n % 64) as Byte]
    else if n < 0x1_0000 then [(0xE0 + n / 4096) as Byte, (0x80 + n / 64 % 64) as Byte, (0x80 + n % 64) as Byte]
    else [(0xF0 + n / 262144) as Byte, (0x80 + n / 4096 % 64) as Byte, (0x80 + n / 64 % 64) as Byte,
      (0x80 + n % 64) as Byte]
  }

  /** The bytes of a string, from its `i`-th character on. */
  function Utf8(s: string, i: nat): Bytes
    requires i <= |s|
    decreases |s| - i
  {
    if i == |s| then [] else Utf8Char(s[i]) + Utf8(s, i + 1)
  }

  /** The first byte tells how many bytes a character has. */
  lemma {:induction false} CharUnambiguous(c: char, s: Bytes, d: char, t: Bytes)
    requires Utf8Char(c) + s == Utf8Char(d) + t
    ensures c == d && s == t
  {
    var x, y := Utf8Char(c), Utf8Char(d);
    assert (x + s)[0] == x[0] && (y + t)[0] == y[0];
    SameLength(c, d);
    assert x == (x + s)[..|x|] && y == (y + t)[..|y|];
    assert s == (x + s)[|x|..] && t == (y + t)[|y|..];
    SameChar(c, d);
  }

  lemma {:induction false} SameLength(c: char, d: char)
    requires Utf8Char(c)[0] == Utf8Char(d)[0]
    ensures |Utf8Char(c)| == |Utf8Char(d)|
  {
  }

  lemma {:induction false} SameChar(c: char, d: char)
    requires Utf8Char(c) == Utf8Char(d)
    ensures c == d
  {
    var x, y, n, m := Utf8Char(c), Utf8Char(d), c as int, d as int;
    assert |x| == |y| && x[0] == y[0] && x[|x| - 1] == y[|x| - 1];
    if |x| == 2 {
      SixBits(n, m);
    } else if |x| == 3 {
      assert x[1] == y[1];
      TwelveBits(n, m);
    } else if |x| == 4 {
      assert x[1] == y[1] && x[2] == y[2];
      EighteenBits(n, m);
    }
  }

  lemma {:induction false} SixBits(n: nat, m: nat)
    requires n / 64 == m / 64 && n % 64 == m % 64
    ensures n == m
  {
  }

  lemma {:induction false} TwelveBits(n: nat, m: nat)
    requires n / 4096 == m / 4096 && n / 64 % 64 == m / 64 % 64 && n % 64 == m % 64
    ensures n == m
  {
    assert n / 4096 == n / 64 / 64 && m / 4096 == m / 64 / 64;
    SixBits(n / 64, m / 64);
  }

  lemma {:induction false} EighteenBits(n: nat, m: nat)
    requires n / 262144 == m / 262144 && n / 4096 % 64 == m / 4096 % 64 && n / 64 % 64 == m / 64 % 64
              && n % 64 == m % 64
    ensures n == m
  {
    assert n / 262144 == n / 4096 / 64 && m / 262144 == m / 4096 / 64;
    SixBits(n / 4096, m / 4096);
    TwelveBits(n, m);
  }

  lemma {:induction false} Utf8Injective(s: string, i: nat, t: string, j: nat)
    requires i <= |s| && j <= |t| && Utf8(s, i) == Utf8(t, j)
    ensures s[i..] == t[j..]
    decreases |s| - i
  {
    if i < |s| && j < |t| {
      CharUnambiguous(s[i], Utf8(s, i + 1), t[j], Utf8(t, j + 1));
      Utf8Injective(s, i + 1, t, j + 1);
      assert s[i..] == [s[i]] + s[i + 1..] && t[j..] == [t[j]] + t[j + 1..];
    }
  }

  // ----- An independent reader: the table of section 3 of RFC 3629

  /** The bits of a continuation byte. */
  function Trailing(b: Bytes, i: nat): Option<int> {
    if i < |b| && 0x80 <= b[i] <= 0xBF then Some(b[i] as int - 0x80) else None
  }

  /** The number of the first character, and how many bytes it takes. */
  function FirstNumber(b: Bytes): Option<(int, nat)>
    requires b != []
  {
    var (first, x, y, z) := (b[0] as int, Trailing(b, 1), Trailing(b, 2), Trailing(b, 3));
    if first < 0x80 then Some((first, 1))
    else if 0xC0 <= first < 0xE0 && x.Some? then Some(((first - 0xC0) * 64 + x.value, 2))
    else if 0xE0 <= first < 0xF0 && x.Some? && y.Some? then
      Some(((first - 0xE0) * 4096 + x.value * 64 + y.value, 3))
    else if 0xF0 <= first < 0xF8 && x.Some? && y.Some? && z.Some? then
      Some(((first - 0xF0) * 262144 + x.value * 4096 + y.value * 64 + z.value, 4))
    else None
  }

  predicate IsCharacter(n: int) {
    0 <= n < 0xD800 || 0xE000 <= n < 0x11_0000
  }

  function Utf8Read(b: Bytes): Option<string> {
    if b == [] then Some("")
    else
      match FirstNumber(b)
      case None => None
      case Some((n, size)) =>
        if size > |b| || size == 0 || !IsCharacter(n) then None
        else
          match Utf8Read(b[size..])
          case None => None
          case Some(rest) => Some([n as char] + rest)
  }

  lemma {:induction false} CharIsRead(c: char, rest: Bytes)
    ensures FirstNumber(Utf8Char(c) + rest) == Some((c as int, |Utf8Char(c)|)) && IsCharacter(c as int)
  {
    var n := c as int;
    var b := Utf8Char(c);
    assert (b + rest)[0] == b[0];
    SixBitGroups(n);
    if n >= 0x1_0000 {
      assert Trailing(b + rest, 1) == Some(n / 4096 % 64);
      assert Trailing(b + rest, 2) == Some(n / 64 % 64);
      assert Trailing(b + rest, 3) == Some(n % 64);
    } else if n >= 0x800 {
      assert Trailing(b + rest, 1) == Some(n / 64 % 64);
      assert Trailing(b + rest, 2) == Some(n % 64);
    } else if n >= 0x80 {
      assert Trailing(b + rest, 1) == Some(n % 64);
    }
  }

  lemma {:induction false} SixBitGroups(n: nat)
    ensures n == n / 64 * 64 + n % 64
    ensures n == n / 4096 * 4096 + n / 64 % 64 * 64 + n % 64
    ensures n == n / 262144 * 262144 + n / 4096 % 64 * 4096 + n / 64 % 64 * 64 + n % 64
  {
    assert n / 4096 == n / 64 / 64 && n / 262144 == n / 4096 / 64;
  }

  lemma {:induction false} Utf8IsRead(s: string, i: nat)
    requires i <= |s|
    ensures Utf8Read(Utf8(s, i)) == Some(s[i..])
    decreases |s| - i
  {
    hide Utf8Char, FirstNumber;
    if i < |s| {
      CharIsRead(s[i], Utf8(s, i + 1));
      CharHasBytes(s[i]);
      assert Utf8(s, i)[|Utf8Char(s[i])|..] == Utf8(s, i + 1);
      Utf8IsRead(s, i + 1);
      assert s[i..] == [s[i]] + s[i + 1..];
    } else {
      assert s[i..] == "";
    }
  }

  lemma {:induction false} CharHasBytes(c: char)
    ensures Utf8Char(c) != []
  {
  }
}
