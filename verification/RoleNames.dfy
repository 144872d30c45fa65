/** encode_role of client.rs: role names, percent-encoded for use in file names and URLs. */
module RoleNames {
  import opened Prelude
  import opened Utf8Text

  // ----- Percent-encoding

  predicate Unreserved(b: Byte) {
    65 <= b <= 90 || 97 <= b <= 122 || 48 <= b <= 57 || b == 45 || b == 95 || b == 46 || b == 126
  }

  function HexDigit(n: int): char
    requires 0 <= n < 16
  {
    if n < 10 then (48 + n) as char else (55 + n) as char
  }

  function PercentByte(b: Byte): string {
    if Unreserved(b) then [b as int as char] else ['%', HexDigit(b as int / 16), HexDigit(b as int % 16)]
  }

  function Percent(b: Bytes, i: nat): string
    requires i <= |b|
    decreases |b| - i
  {
    if i == |b| then "" else PercentByte(b[i]) + Percent(b, i + 1)
  }

  function EncodedRole(role: string): string {
    Percent(Utf8(role, 0), 0)
  }

  method EncodeRole(role: string) returns (encoded: string)
    ensures encoded == EncodedRole(role)
  {
    var bytes := Utf8(role, 0);
    encoded := "";
    for i := 0 to |bytes|
      invariant encoded + Percent(bytes, i) == EncodedRole(role)
    {
      var b := bytes[i];
      assert encoded + Percent(bytes, i) == (encoded + PercentByte(b)) + Percent(bytes, i + 1);
      if Unreserved(b) {
        encoded := encoded + [b as int as char];
      } else {
        encoded := encoded + (['%', HexDigit(b as int / 16), HexDigit(b as int % 16)]);
      }
    }
  }

  lemma {:induction false} PercentByteUnambiguous(a: Byte, s: string, b: Byte, t: string)
    requires PercentByte(a) + s == PercentByte(b) + t
    ensures a == b && s == t
  {
    var x, y := PercentByte(a), PercentByte(b);
    assert (x + s)[0] == x[0] && (y + t)[0] == y[0];
    assert |x| == |y|;
    assert x == (x + s)[..|x|] && y == (y + t)[..|y|];
    assert s == (x + s)[|x|..] && t == (y + t)[|y|..];
    assert forall k :: 0 <= k < |x| ==> x[k] == y[k];
  }

  lemma {:induction false} PercentInjective(a: Bytes, i: nat, b: Bytes, j: nat)
    requires i <= |a| && j <= |b| && Percent(a, i) == Percent(b, j)
    ensures a[i..] == b[j..]
    decreases |a| - i
  {
    if i < |a| && j < |b| {
      PercentByteUnambiguous(a[i], Percent(a, i + 1), b[j], Percent(b, j + 1));
      PercentInjective(a, i + 1, b, j + 1);
      assert a[i..] == [a[i]] + a[i + 1..] && b[j..] == [b[j]] + b[j + 1..];
    }
  }

  /** Different roles have different file names. */
  lemma {:induction false} EncodedRoleInjective(a: string, b: string)
    ensures EncodedRole(a) == EncodedRole(b) ==> a == b
  {
    if EncodedRole(a) == EncodedRole(b) {
      PercentInjective(Utf8(a, 0), 0, Utf8(b, 0), 0);
      assert Utf8(a, 0)[0..] == Utf8(a, 0) && Utf8(b, 0)[0..] == Utf8(b, 0);
      Utf8Injective(a, 0, b, 0);
      assert a[0..] == a && b[0..] == b;
    }
  }

  lemma {:induction false} NoSlashInByte(b: Byte)
    ensures '/' !in PercentByte(b)
  {
  }

  /** The name is safe as one component of a path. */
  lemma {:induction false} NoSlash(b: Bytes, i: nat)
    requires i <= |b|
    ensures '/' !in Percent(b, i)
    decreases |b| - i
  {
    hide PercentByte;
    if i < |b| {
      NoSlash(b, i + 1);
      NoSlashInByte(b[i]);
    }
  }

  predicate Plain(s: string) {
    forall i :: 0 <= i < |s| ==> s[i] as int < 128 && Unreserved(s[i] as int as Byte)
  }

  /** Letters, digits and the marks `-`, `_`, `.` and `~` stand for themselves. */
  lemma {:induction false} PlainUnchanged(s: string, i: nat)
    requires Plain(s) && i <= |s|
    ensures Percent(Utf8(s, i), 0) == s[i..]
    decreases |s| - i
  {
    if i < |s| {
      PlainUnchanged(s, i + 1);
      var rest := Utf8(s, i + 1);
      assert Utf8(s, i) == [s[i] as int as Byte] + rest;
      PercentShift([s[i] as int as Byte] + rest, rest, 0);
      assert s[i..] == [s[i]] + s[i + 1..];
    }
  }

  lemma {:induction false} PercentShift(a: Bytes, b: Bytes, i: nat)
    requires i <= |b| && |a| == |b| + 1 && forall k :: 0 <= k < |b| ==> a[k + 1] == b[k]
    ensures Percent(a, i + 1) == Percent(b, i)
    decreases |b| - i
  {
    hide PercentByte;
    if i < |b| { PercentShift(a, b, i + 1); }
  }

  /** Only a role of that very name is stored under a plain name. */
  lemma {:induction false} PlainNameIsOwn(role: string, name: string)
    requires Plain(name)
    ensures EncodedRole(role) == name <==> role == name
  {
    PlainUnchanged(name, 0);
    assert name[0..] == name;
    EncodedRoleInjective(role, name);
  }

  // ----- An independent reader

  function HexValue(c: char): Option<int> {
    if '0' <= c <= '9' then Some(c as int - '0' as int)
    else if 'A' <= c <= 'F' then Some(c as int - 'A' as int + 10)
    else None
  }

  predicate StandsForItself(c: char) {
    'A' <= c <= 'Z' || 'a' <= c <= 'z' || '0' <= c <= '9' || c in "-_.~"
  }

  /** Letters, digits and four marks stand for themselves, and any other byte for two upper-case hexadecimal digits. */
  function PercentRead(s: string): Option<Bytes> {
    if s == "" then Some([])
    else if StandsForItself(s[0]) then Read(s[0] as int, PercentRead(s[1..]))
    else if s[0] != '%' || |s| < 3 || HexValue(s[1]).None? || HexValue(s[2]).None? then None
    else
      var n := 16 * HexValue(s[1]).value + HexValue(s[2]).value;
      if n < 128 && StandsForItself(n as char) then None else Read(n, PercentRead(s[3..]))
  }

  function Read(n: int, rest: Option<Bytes>): Option<Bytes> {
    if rest.None? || n < 0 || n > 255 then None else Some([n as Byte] + rest.value)
  }

  lemma {:induction false} ByteIsRead(b: Byte, rest: string)
    ensures PercentRead(PercentByte(b) + rest) == Read(b as int, PercentRead(rest))
  {
    var s := PercentByte(b) + rest;
    if Unreserved(b) {
      assert s[0] == b as int as char && s[1..] == rest;
    } else {
      var n := b as int;
      assert s[0] == '%' && s[1] == HexDigit(n / 16) && s[2] == HexDigit(n % 16) && s[3..] == rest;
      HexIsRead(n / 16);
      HexIsRead(n % 16);
      assert !(n < 128 && StandsForItself(n as char));
    }
  }

  lemma {:induction false} HexIsRead(n: int)
    requires 0 <= n < 16
    ensures HexValue(HexDigit(n)) == Some(n)
  {
  }

  lemma {:induction false} PercentIsRead(b: Bytes, i: nat)
    requires i <= |b|
    ensures PercentRead(Percent(b, i)) == Some(b[i..])
    decreases |b| - i
  {
    hide PercentByte;
    if i < |b| {
      PercentIsRead(b, i + 1);
      ByteIsRead(b[i], Percent(b, i + 1));
      assert b[i..] == [b[i]] + b[i + 1..];
    } else {
      assert b[i..] == [];
    }
  }

  /** The file name is read back as the UTF-8 bytes of the role. */
  lemma {:induction false} EncodedRoleIsRead(role: string)
    ensures PercentRead(EncodedRole(role)) == Some(Utf8(role, 0)) && Utf8Read(Utf8(role, 0)) == Some(role)
  {
    PercentIsRead(Utf8(role, 0), 0);
    assert Utf8(role, 0)[0..] == Utf8(role, 0);
    Utf8IsRead(role, 0);
    assert role[0..] == role;
  }
}
