/**
 * A reader of canonical JSON that shares nothing with the encoder: it takes the text apart byte by byte, and
 * insists on keys in increasing order, on shortest numerals and on no needless escape. It accepts exactly the
 * texts that the encoder writes.
 */
module CanonicalReader {
  import opened Prelude
  import opened Decimal
  import opened CanonicalJson

  // ----- The reader; each part returns what it has read and the text that follows

  predicate Digit(s: Bytes, i: nat) {
    i < |s| && 48 <= s[i] <= 57
  }

  function ReadDigits(s: Bytes, n: nat): (r: (nat, Bytes))
    ensures |r.1| <= |s| && (Digit(s, 0) ==> |r.1| < |s|)
    decreases |s|
  {
    if Digit(s, 0) then ReadDigits(s[1..], 10 * n + (s[0] as int - 48)) else (n, s)
  }

  function ReadNatural(s: Bytes): (r: Option<(nat, Bytes)>)
    ensures r.Some? ==> |r.value.1| < |s|
  {
    if !Digit(s, 0) || (s[0] == 48 && Digit(s, 1)) then None else Some(ReadDigits(s, 0))
  }

  /** After the opening quote. */
  function ReadString(s: Bytes): (r: Option<(Bytes, Bytes)>)
    ensures r.Some? ==> |r.value.1| < |s|
    decreases |s|
  {
    if s == [] then None
    else if s[0] == 34 then Some(([], s[1..]))
    else if s[0] != 92 then Prefixed(s[0], ReadString(s[1..]))
    else if |s| > 1 && (s[1] == 34 || s[1] == 92) then Prefixed(s[1], ReadString(s[2..]))
    else None
  }

  function Prefixed(b: Byte, r: Option<(Bytes, Bytes)>): Option<(Bytes, Bytes)> {
    match r
    case None => None
    case Some((text, rest)) => Some(([b] + text, rest))
  }

  function ReadInteger(s: Bytes): (r: Option<(Json, Bytes)>)
    ensures r.Some? ==> |r.value.1| < |s|
  {
    var negative := s != [] && s[0] == 45;
    match ReadNatural(if negative then s[1..] else s)
    case None => None
    case Some((n, rest)) =>
      if negative then if 0 < n <= 0x8000_0000_0000_0000 then Some((Number(Integer(-(n as int))), rest)) else None
      else if n < 0x1_0000_0000_0000_0000 then Some((Number(Integer(n)), rest)) else None
  }

  function ReadValue(s: Bytes): (r: Option<(Json, Bytes)>)
    ensures r.Some? ==> |r.value.1| < |s|
    decreases |s|, 0
  {
    if |s| >= 4 && s[..4] == [110, 117, 108, 108] then Some((Null, s[4..]))
    else if |s| >= 4 && s[..4] == [116, 114, 117, 101] then Some((Bool(true), s[4..]))
    else if |s| >= 5 && s[..5] == [102, 97, 108, 115, 101] then Some((Bool(false), s[5..]))
    else if s == [] then None
    else if s[0] == 34 then
      match ReadString(s[1..])
      case None => None
      case Some((text, rest)) => Some((String(text), rest))
    else if s[0] == 91 then if |s| > 1 && s[1] == 93 then Some((Array([]), s[2..])) else ReadItems(s[1..], [])
    else if s[0] == 123 then
      if |s| > 1 && s[1] == 125 then Some((Object(map[]), s[2..])) else ReadMembers(s[1..], [], map[])
    else ReadInteger(s)
  }

  /** An item, and then a comma and more items or the closing bracket. */
  function ReadItems(s: Bytes, items: seq<Json>): (r: Option<(Json, Bytes)>)
    ensures r.Some? ==> |r.value.1| < |s|
    decreases |s|, 1
  {
    match ReadValue(s)
    case None => None
    case Some((v, rest)) =>
      if rest == [] then None
      else if rest[0] == 93 then Some((Array(items + [v]), rest[1..]))
      else if rest[0] == 44 then ReadItems(rest[1..], items + [v])
      else None
  }

  /** A member whose key comes after the ones before, and then a comma and more members or the closing brace. */
  function ReadMembers(s: Bytes, keys: seq<Bytes>, members: map<Bytes, Json>): (r: Option<(Json, Bytes)>)
    ensures r.Some? ==> |r.value.1| < |s|
    decreases |s|, 1
  {
    match ReadKey(s)
    case None => None
    case Some((key, value)) =>
      if keys != [] && !Precedes(keys[|keys| - 1], key) then None
      else
        match ReadValue(value)
        case None => None
        case Some((v, rest)) =>
          if rest == [] then None
          else if rest[0] == 125 then Some((Object(members[key := v]), rest[1..]))
          else if rest[0] == 44 then ReadMembers(rest[1..], keys + [key], members[key := v])
          else None
  }

  /** A string and a colon. */
  function ReadKey(s: Bytes): (r: Option<(Bytes, Bytes)>)
    ensures r.Some? ==> |r.value.1| < |s|
  {
    if s == [] || s[0] != 34 then None
    else
      match ReadString(s[1..])
      case None => None
      case Some((key, rest)) => if rest != [] && rest[0] == 58 then Some((key, rest[1..])) else None
  }

  /** A text that is one value and nothing else. */
  function Read(s: Bytes): Option<Json> {
    match ReadValue(s)
    case None => None
    case Some((v, rest)) => if rest == [] then Some(v) else None
  }

  // ----- It reads what the encoder writes

  lemma {:induction false} DigitsAreRead(n: nat, tail: Bytes)
    ensures ReadDigits(Dec(n) + tail, 0) == ReadDigits(tail, n)
  {
    if n < 10 {
      assert (Dec(n) + tail)[1..] == tail;
    } else {
      var d: Bytes := [(48 + n % 10) as Byte];
      DigitsAreRead(n / 10, d + tail);
      assert Dec(n) + tail == Dec(n / 10) + (d + tail);
      assert (d + tail)[1..] == tail;
    }
  }

  lemma {:induction false} ShortestNumeral(n: nat)
    ensures Dec(n)[0] == 48 ==> n == 0
    ensures Dec(0) == [48]
  {
    if n >= 10 {
      ShortestNumeral(n / 10);
      assert Dec(n)[0] == Dec(n / 10)[0];
    }
  }

  lemma {:induction false} NaturalIsRead(n: nat, tail: Bytes)
    requires !StartsWithDigit(tail)
    ensures ReadNatural(Dec(n) + tail) == Some((n, tail)) && (Dec(n) + tail)[0] != 45
  {
    ShortestNumeral(n);
    DigitsAreRead(n, tail);
    assert (Dec(n) + tail)[0] == Dec(n)[0];
    if n == 0 && tail != [] { assert (Dec(0) + tail)[1] == tail[0]; }
  }

  lemma {:induction false} IntegerIsRead(i: JsonInt, tail: Bytes)
    requires !StartsWithDigit(tail)
    ensures ReadInteger(IntTo(i, tail)) == Some((Number(Integer(i)), tail))
  {
    hide Dec, ReadDigits, ReadNatural;
    if i < 0 {
      NaturalIsRead(-i, tail);
      assert IntTo(i, tail) == [45] + (Dec(-i) + tail);
    } else {
      NaturalIsRead(i, tail);
    }
  }

  lemma {:induction false} StringIsRead(s: Bytes, i: nat, tail: Bytes)
    requires i <= |s|
    ensures ReadString(EscapedTo(s, i, tail)) == Some((s[i..], tail))
    decreases |s| - i
  {
    hide ReadString;
    if i == |s| {
      NothingIsRead(tail);
      assert s[i..] == [];
    } else {
      StringIsRead(s, i + 1, tail);
      OneIsRead(s[i], EscapedTo(s, i + 1, tail));
      assert s[i..] == [s[i]] + s[i + 1..];
    }
  }

  lemma {:induction false} NothingIsRead(tail: Bytes)
    ensures ReadString([34] + tail) == Some(([], tail))
  {
    assert ([34] + tail)[1..] == tail;
  }

  lemma {:induction false} OneIsRead(b: Byte, rest: Bytes)
    ensures ReadString(if b == 92 || b == 34 then [92] + ([b] + rest) else [b] + rest) == Prefixed(b, ReadString(rest))
  {
    if b == 92 || b == 34 {
      var text := [92] + ([b] + rest);
      assert text[1] == b && text[2..] == rest;
    } else {
      assert ([b] + rest)[1..] == rest;
    }
  }

  /** Where no other rule applies, an integer is read. */
  lemma {:induction false} OnlyInteger(s: Bytes)
    requires s != [] && (StartsWithDigit(s) || s[0] == 45)
    ensures ReadValue(s) == ReadInteger(s)
  {
    assert |s| >= 4 ==> s[..4][0] == s[0];
    assert |s| >= 5 ==> s[..5][0] == s[0];
  }

  lemma {:induction false} StartsOtherwise(s: Bytes)
    requires s != [] && (s[0] == 34 || s[0] == 91 || s[0] == 123)
    ensures |s| >= 4 ==> s[..4] != [110, 117, 108, 108] && s[..4] != [116, 114, 117, 101]
    ensures |s| >= 5 ==> s[..5] != [102, 97, 108, 115, 101]
  {
    assert |s| >= 4 ==> s[..4][0] == s[0];
    assert |s| >= 5 ==> s[..5][0] == s[0];
  }

  /** Whatever follows, unless it goes on with a digit. */
  lemma {:induction false} ValueIsRead(v: Json, tail: Bytes)
    requires Encodable(v) && !StartsWithDigit(tail)
    ensures ReadValue(EncTo(v, tail)) == Some((v, tail))
    decreases v, 2, 0
  {
    hide ReadString, ReadNatural, ReadInteger, ReadItems, ReadMembers, Dec, EscapedTo;
    var text := EncTo(v, tail);
    FirstByte(v, tail);
    match v
    case Null => assert text[..4] == NULL && text[4..] == tail;
    case Bool(b) => BoolIsRead(b, tail);
    case Number(n) =>
      OnlyInteger(text);
      IntegerIsRead(n.i, tail);
    case String(s) =>
      StartsOtherwise(text);
      StringIsRead(s, 0, tail);
      assert text[1..] == EscapedTo(s, 0, tail) && s[0..] == s;
    case Array(items) =>
      StartsOtherwise(text);
      assert text[1..] == ItemsTo(v, 0, tail);
      if items == [] {
        assert text == [91, 93] + tail && text[2..] == tail;
      } else {
        FirstByte(items[0], ItemsTo(v, 1, tail));
        ItemsAreRead(v, 0, tail);
        assert items[..0] == [];
      }
    case Object(m) => ObjectIsRead(v, tail);
  }

  lemma {:induction false} BoolIsRead(b: bool, tail: Bytes)
    ensures ReadValue(EncTo(Bool(b), tail)) == Some((Bool(b), tail))
  {
    hide ReadItems, ReadMembers, ReadInteger, ReadString;
    var text := EncTo(Bool(b), tail);
    if b {
      assert text[..4] == TRUE && text[4..] == tail;
    } else {
      assert text[..5] == FALSE && text[5..] == tail && text[..4] == FALSE[..4];
      assert text[..4][0] == 102;
    }
  }

  lemma {:induction false} ItemsAreRead(v: Json, i: nat, tail: Bytes)
    requires v.Array? && Encodable(v) && i < |v.items| && !StartsWithDigit(tail)
    ensures ReadItems(EncTo(v.items[i], ItemsTo(v, i + 1, tail)), v.items[..i]) == Some((v, tail))
    decreases v, 0, |v.items| - i
  {
    hide ReadValue, EncTo;
    var rest := ItemsTo(v, i + 1, tail);
    NoDigitAfterItem(v, i + 1, tail);
    ValueIsRead(v.items[i], rest);
    assert v.items[..i] + [v.items[i]] == v.items[..i + 1];
    if i + 1 == |v.items| {
      assert rest[1..] == tail && v.items[..i + 1] == v.items;
    } else {
      ItemsAreRead(v, i + 1, tail);
      assert rest[1..] == EncTo(v.items[i + 1], ItemsTo(v, i + 2, tail));
    }
  }

  lemma {:induction false} ObjectIsRead(v: Json, tail: Bytes)
    requires v.Object? && Encodable(v) && !StartsWithDigit(tail)
    ensures ReadValue(EncTo(v, tail)) == Some((v, tail))
    decreases v, 1, 0
  {
    hide ReadString, ReadItems, ReadMembers, ReadInteger, EscapedTo, Sorted;
    var ks, text := SortedKeys(v.members.Keys), EncTo(v, tail);
    var members := MembersTo(v, ks, 0, tail);
    StartsOtherwise(text);
    assert text[1..] == members;
    MembersStep(v, ks, 0, tail);
    if ks == [] {
      assert text == [123, 125] + tail && text[2..] == tail;
      assert v.members == map[];
    } else {
      assert text[1] == members[0] == 34;
      MembersAreRead(v, ks, 0, tail);
      assert [] + MemberText(v, ks[0], MembersTo(v, ks, 1, tail)) == members;
      assert ks[..0] == [] && Restricted(v.members, ks, 0) == map[];
    }
  }

  /** The members under the first `i` keys. */
  ghost function Restricted(members: map<Bytes, Json>, ks: seq<Bytes>, i: nat): map<Bytes, Json>
    requires i <= |ks|
  {
    map k | k in members && k in ks[..i] :: members[k]
  }

  lemma {:induction false} MemberIsRead(v: Json, key: Bytes, after: Bytes, keys: seq<Bytes>, members: map<Bytes, Json>)
    requires v.Object? && Encodable(v) && key in v.members && after != [] && !StartsWithDigit(after)
    requires keys == [] || Precedes(keys[|keys| - 1], key)
    ensures ReadMembers(MemberText(v, key, after), keys, members) ==
            if after[0] == 125 then Some((Object(members[key := v.members[key]]), after[1..]))
            else if after[0] == 44 then ReadMembers(after[1..], keys + [key], members[key := v.members[key]])
            else None
    decreases v, 0, 0
  {
    hide ReadString, ReadValue, EncTo, EscapedTo, Precedes;
    var text, value := MemberText(v, key, after), EncTo(v.members[key], after);
    StringIsRead(key, 0, [58] + value);
    assert text[1..] == EscapedTo(key, 0, [58] + value) && key[0..] == key && ([58] + value)[1..] == value;
    ValueIsRead(v.members[key], after);
  }

  lemma {:induction false} MembersAreRead(v: Json, ks: seq<Bytes>, i: nat, tail: Bytes)
    requires v.Object? && Encodable(v) && Lists(ks, v.members.Keys) && i < |ks| && !StartsWithDigit(tail)
    ensures ReadMembers(MemberText(v, ks[i], MembersTo(v, ks, i + 1, tail)), ks[..i], Restricted(v.members, ks, i)) ==
            Some((v, tail))
    decreases v, 0, |ks| - i + 1
  {
    hide ReadMembers, EncTo, MembersTo, MemberText, Less, Precedes;
    var after := MembersTo(v, ks, i + 1, tail);
    MembersStep(v, ks, i, tail);
    MembersStep(v, ks, i + 1, tail);
    if i > 0 { LessIsPrecedes(ks[i - 1], ks[i]); }
    MemberIsRead(v, ks[i], after, ks[..i], Restricted(v.members, ks, i));
    assert ks[..i] + [ks[i]] == ks[..i + 1];
    assert Restricted(v.members, ks, i)[ks[i] := v.members[ks[i]]] == Restricted(v.members, ks, i + 1);
    if i + 1 == |ks| {
      assert after[1..] == tail;
      assert ks[..i + 1] == ks && Restricted(v.members, ks, |ks|) == v.members;
    } else {
      MembersAreRead(v, ks, i + 1, tail);
      assert after[1..] == MemberText(v, ks[i + 1], MembersTo(v, ks, i + 2, tail));
    }
  }

  // ----- It reads nothing else

  lemma {:induction false} OneMoreDigit(n: nat, d: nat)
    requires n > 0 && d < 10
    ensures Dec(10 * n + d) == Dec(n) + [(48 + d) as Byte]
  {
    assert (10 * n + d) / 10 == n && (10 * n + d) % 10 == d;
  }

  lemma {:induction false} ReadDigitsAreDec(s: Bytes, n: nat)
    requires n > 0
    ensures var (m, rest) := ReadDigits(s, n); Dec(n) + s == Dec(m) + rest
    decreases |s|
  {
    hide Dec;
    if Digit(s, 0) {
      var d := s[0] as int - 48;
      ReadDigitsAreDec(s[1..], 10 * n + d);
      OneMoreDigit(n, d);
      assert Dec(n) + s == (Dec(n) + [s[0]]) + s[1..];
    }
  }

  lemma {:induction false} ReadNaturalIsDec(s: Bytes)
    requires ReadNatural(s).Some?
    ensures s == Dec(ReadNatural(s).value.0) + ReadNatural(s).value.1
  {
    var d := s[0] as int - 48;
    assert s == Dec(d) + s[1..];
    assert Digit(s[1..], 0) == Digit(s, 1);
    if d > 0 { ReadDigitsAreDec(s[1..], d); } else { assert ReadDigits(s, 0) == (0, s[1..]); }
  }

  lemma {:induction false} ReadIntegerIsEncoded(s: Bytes)
    requires ReadInteger(s).Some?
    ensures var (v, rest) := ReadInteger(s).value; Encodable(v) && s == EncTo(v, rest)
  {
    hide ReadNatural, Dec;
    if s != [] && s[0] == 45 {
      ReadNaturalIsDec(s[1..]);
      assert s == [45] + s[1..];
    } else {
      ReadNaturalIsDec(s);
    }
  }

  /** A string goes on as its tail does. */
  lemma {:induction false} EscapedShift(b: Byte, s: Bytes, i: nat, tail: Bytes)
    requires i <= |s|
    ensures EscapedTo([b] + s, i + 1, tail) == EscapedTo(s, i, tail)
    decreases |s| - i
  {
    if i < |s| { EscapedShift(b, s, i + 1, tail); }
  }

  lemma {:induction false} EscapedCons(b: Byte, s: Bytes, tail: Bytes)
    ensures EscapedTo([b] + s, 0, tail) ==
            if b == 92 || b == 34 then [92] + ([b] + EscapedTo(s, 0, tail)) else [b] + EscapedTo(s, 0, tail)
  {
    EscapedShift(b, s, 0, tail);
    assert ([b] + s)[0] == b;
  }

  lemma {:induction false} ReadStringIsEscaped(s: Bytes)
    requires ReadString(s).Some?
    ensures s == EscapedTo(ReadString(s).value.0, 0, ReadString(s).value.1)
    decreases |s|
  {
    hide EscapedTo;
    var tail := ReadString(s).value.1;
    if s[0] == 34 {
      NoMoreText(tail);
      assert s == [34] + s[1..];
    } else if s[0] == 92 {
      ReadStringIsEscaped(s[2..]);
      EscapedCons(s[1], ReadString(s[2..]).value.0, tail);
      assert s == [92] + ([s[1]] + s[2..]);
    } else {
      ReadStringIsEscaped(s[1..]);
      EscapedCons(s[0], ReadString(s[1..]).value.0, tail);
      assert s == [s[0]] + s[1..];
    }
  }

  lemma {:induction false} NoMoreText(tail: Bytes)
    ensures EscapedTo([], 0, tail) == [34] + tail
  {
  }

  lemma {:induction false} ReadKeyIsEncoded(s: Bytes)
    requires ReadKey(s).Some?
    ensures var (key, rest) := ReadKey(s).value; s == StringTo(key, [58] + rest)
  {
    hide ReadString, EscapedTo;
    ReadStringIsEscaped(s[1..]);
    var t := ReadString(s[1..]).value.1;
    assert t == [58] + t[1..] && s == [34] + s[1..];
  }

  lemma {:induction false} ReadValueIsEncoded(s: Bytes)
    requires ReadValue(s).Some?
    ensures var (v, rest) := ReadValue(s).value; Encodable(v) && s == EncTo(v, rest)
    decreases |s|, 0
  {
    hide ReadString, ReadInteger, ReadItems, ReadMembers, EscapedTo, IntTo;
    var (v, rest) := ReadValue(s).value;
    if |s| >= 4 && (s[..4] == [110, 117, 108, 108] || s[..4] == [116, 114, 117, 101]) {
      assert s == s[..4] + s[4..];
    } else if |s| >= 5 && s[..5] == [102, 97, 108, 115, 101] {
      assert s == s[..5] + s[5..];
    } else if s[0] == 34 {
      ReadStringIsEscaped(s[1..]);
      assert s == [34] + s[1..];
    } else if s[0] == 91 {
      ArrayIsEncoded(s);
    } else if s[0] == 123 {
      ObjectIsEncoded(s);
    } else {
      ReadIntegerIsEncoded(s);
    }
  }

  lemma {:induction false} ArrayIsEncoded(s: Bytes)
    requires ReadValue(s).Some? && s[0] == 91
    ensures var (v, rest) := ReadValue(s).value; Encodable(v) && s == EncTo(v, rest)
    decreases |s| - 1, 2
  {
    hide ReadString, ReadInteger, ReadItems, ReadMembers, EscapedTo, IntTo;
    StartsOtherwise(s);
    if |s| > 1 && s[1] == 93 {
      assert s == [91] + ([93] + s[2..]);
    } else {
      ReadItemsIsEncoded(s[1..], []);
      assert s == [91] + s[1..];
    }
  }

  lemma {:induction false} ReadItemsIsEncoded(s: Bytes, items: seq<Json>)
    requires ReadItems(s, items).Some? && forall x :: x in items ==> Encodable(x)
    ensures var (v, rest) := ReadItems(s, items).value;
            && Encodable(v) && v.Array? && |items| < |v.items| && v.items[..|items|] == items
            && s == EncTo(v.items[|items|], ItemsTo(v, |items| + 1, rest))
    decreases |s|, 1
  {
    hide ReadValue, EncTo;
    ReadValueIsEncoded(s);
    var (x, t) := ReadValue(s).value;
    var (v, rest) := ReadItems(s, items).value;
    assert t == [t[0]] + t[1..];
    if t[0] == 44 {
      ReadItemsIsEncoded(t[1..], items + [x]);
      assert v.items[|items|] == v.items[..|items| + 1][|items|] == x;
      assert v.items[..|items|] == v.items[..|items| + 1][..|items|];
    } else {
      assert v == Array(items + [x]);
      assert v.items[..|items|] == items;
    }
  }

  lemma {:induction false} ObjectIsEncoded(s: Bytes)
    requires ReadValue(s).Some? && s[0] == 123
    ensures var (v, rest) := ReadValue(s).value; Encodable(v) && s == EncTo(v, rest)
    decreases |s| - 1, 2
  {
    hide ReadString, ReadInteger, ReadItems, ReadMembers, EscapedTo, IntTo, Sorted;
    StartsOtherwise(s);
    var (v, rest) := ReadValue(s).value;
    if |s| > 1 && s[1] == 125 {
      var ks := SortedKeys(v.members.Keys);
      NothingListed(v.members);
      SortedKeysUnique(ks, [], v.members.Keys, 0);
      assert s == [123] + ([125] + s[2..]);
    } else {
      NothingListed(map[]);
      ReadMembersIsEncoded(s[1..], [], map[]);
      var ks := SortedKeys(v.members.Keys);
      MembersStep(v, ks, 0, rest);
      assert [] + s[1..] == s[1..];
      assert s == [123] + s[1..];
    }
  }

  lemma {:induction false} NothingListed(none: map<Bytes, Json>)
    requires none == map[]
    ensures Lists([], none.Keys)
  {
  }

  lemma {:induction false} NextKey(keys: seq<Bytes>, key: Bytes, old': set<Bytes>)
    requires Lists(keys, old') && (keys == [] || Precedes(keys[|keys| - 1], key))
    ensures Lists(keys + [key], old' + {key})
  {
    hide Precedes, Less;
    var more := keys + [key];
    forall i, j | 0 <= i < j < |more| ensures Less(more[i], more[j]) {
      if j == |keys| {
        LessIsPrecedes(keys[j - 1], key);
        assert i < j - 1 ==> Less(keys[i], keys[j - 1]);
        LessChain(keys[i], keys[j - 1], key);
      }
    }
    assert forall k :: k in more <==> k in keys || k == key;
  }

  lemma {:induction false} LessChain(a: Bytes, b: Bytes, c: Bytes)
    requires (a == b || Less(a, b)) && Less(b, c)
    ensures Less(a, c)
  {
    LessTransitive(a, b, c, 0);
  }

  /** The members from `key` on, when `keys` and `members` have been read before. */
  ghost predicate GoesOn(s: Bytes, keys: seq<Bytes>, members: map<Bytes, Json>, v: Json, rest: Bytes) {
    && v.Object? && Encodable(v)
    && var ks := SortedKeys(v.members.Keys);
    && |keys| < |ks| && ks[..|keys|] == keys && (forall k :: k in keys ==> k in members && v.members[k] == members[k])
    && s == MemberText(v, ks[|keys|], MembersTo(v, ks, |keys| + 1, rest))
  }

  lemma {:induction false} LastMember(keys: seq<Bytes>, key: Bytes, members: map<Bytes, Json>, x: Json, rest: Bytes)
    requires Lists(keys + [key], members.Keys) && key in members && members[key] == x
    requires forall k :: k in members ==> Encodable(members[k])
    ensures GoesOn(StringTo(key, [58] + EncTo(x, [125] + rest)), keys, members, Object(members), rest)
  {
    hide EncTo, StringTo, Sorted;
    var v := Object(members);
    var ks := SortedKeys(members.Keys);
    SortedKeysUnique(ks, keys + [key], members.Keys, 0);
    MembersStep(v, ks, |ks|, rest);
  }

  lemma {:induction false} MoreMembers(keys: seq<Bytes>, key: Bytes, members: map<Bytes, Json>, x: Json, s: Bytes,
        v: Json, rest: Bytes)
    requires key in members && members[key] == x && Encodable(x) && GoesOn(s, keys + [key], members, v, rest)
    ensures GoesOn(StringTo(key, [58] + EncTo(x, [44] + s)), keys, members, v, rest)
  {
    hide EncTo, StringTo, Sorted;
    var ks := SortedKeys(v.members.Keys);
    assert ks[|keys|] == ks[..|keys| + 1][|keys|] == key;
    assert ks[..|keys|] == ks[..|keys| + 1][..|keys|];
    assert key in keys + [key] && forall k :: k in keys ==> k in keys + [key];
    MembersStep(v, ks, |keys| + 1, rest);
  }

  lemma {:induction false} ReadMembersIsEncoded(s: Bytes, keys: seq<Bytes>, members: map<Bytes, Json>)
    requires ReadMembers(s, keys, members).Some? && Lists(keys, members.Keys)
    requires forall k :: k in members ==> Encodable(members[k])
    ensures GoesOn(s, keys, members, ReadMembers(s, keys, members).value.0, ReadMembers(s, keys, members).value.1)
    decreases |s|, 1
  {
    hide ReadValue, EncTo, ReadKey, Precedes, Sorted, StringTo, GoesOn;
    var (key, text) := ReadKey(s).value;
    ReadKeyIsEncoded(s);
    ReadValueIsEncoded(text);
    var (x, t) := ReadValue(text).value;
    NextKey(keys, key, members.Keys);
    var more := members[key := x];
    assert more.Keys == members.Keys + {key};
    assert t == [t[0]] + t[1..];
    if t[0] == 44 {
      ReadMembersIsEncoded(t[1..], keys + [key], more);
      var (v, rest) := ReadMembers(t[1..], keys + [key], more).value;
      MoreMembers(keys, key, more, x, t[1..], v, rest);
      StillGoesOn(s, keys, key, members, x, v, rest);
    } else {
      LastMember(keys, key, more, x, t[1..]);
      StillGoesOn(s, keys, key, members, x, Object(more), t[1..]);
    }
  }

  lemma {:induction false} StillGoesOn(s: Bytes, keys: seq<Bytes>, key: Bytes, members: map<Bytes, Json>, x: Json,
        v: Json, rest: Bytes)
    requires Lists(keys + [key], members.Keys + {key}) && GoesOn(s, keys, members[key := x], v, rest)
    ensures GoesOn(s, keys, members, v, rest)
  {
    hide EncTo, MemberText;
    LessIrreflexive(key, 0);
    forall i | 0 <= i < |keys| ensures keys[i] != key && keys[i] in members {
      assert Less((keys + [key])[i], (keys + [key])[|keys|]);
      assert (keys + [key])[i] in members.Keys + {key};
    }
  }

  /** The reader accepts exactly the canonical texts, and returns their values. */
  lemma {:induction false} ReadIffCanonical(s: Bytes, v: Json)
    ensures Read(s) == Some(v) <==> Encodable(v) && s == Canonical(v)
  {
    hide ReadValue, EncTo;
    if Encodable(v) && s == Canonical(v) {
      ValueIsRead(v, []);
    }
    if Read(s) == Some(v) {
      ReadValueIsEncoded(s);
    }
  }
}
