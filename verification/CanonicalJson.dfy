/** canonical_json.rs: the bytes that TUF signatures cover. */
module CanonicalJson {
  import opened Prelude
  import opened Decimal

  /** The integers that are an `i64` or a `u64`. */
  type JsonInt = i: int | -0x8000_0000_0000_0000 <= i < 0x1_0000_0000_0000_0000

  /** A number that is not an integer is kept by its bit pattern; it is never encoded. */
  datatype Num = Integer(i: JsonInt) | Float(bits: U64)

  /** A parsed JSON value; strings are the bytes of their UTF-8 form. */
  datatype Json =
    | Null
    | Bool(b: bool)
    | Number(n: Num)
    | String(s: Bytes)
    | Array(items: seq<Json>)
    | Object(members: map<Bytes, Json>)

  /** No float occurs anywhere in the value. */
  predicate Encodable(v: Json) {
    match v
    case Number(n) => n.Integer?
    case Array(items) => forall x :: x in items ==> Encodable(x)
    case Object(members) => forall k :: k in members ==> Encodable(members[k])
    case _ => true
  }

  datatype JsonError = NonIntegerNumber

  const QUOTE: Byte := 34
  const COMMA: Byte := 44
  const MINUS: Byte := 45
  const COLON: Byte := 58
  const OPEN_BRACKET: Byte := 91
  const BACKSLASH: Byte := 92
  const CLOSE_BRACKET: Byte := 93
  const OPEN_BRACE: Byte := 123
  const CLOSE_BRACE: Byte := 125
  const NULL: Bytes := [110, 117, 108, 108]
  const TRUE: Bytes := [116, 114, 117, 101]
  const FALSE: Bytes := [102, 97, 108, 115, 101]

  // ----- Key order

  /** Byte-wise order, which is code-point order on UTF-8. */
  predicate Less(a: Bytes, b: Bytes) {
    LessFrom(a, b, 0)
  }

  predicate LessFrom(a: Bytes, b: Bytes, i: nat)
    requires i <= |a| && i <= |b|
    decreases |a| - i
  {
    i < |b| && (i == |a| || a[i] < b[i] || (a[i] == b[i] && LessFrom(a, b, i + 1)))
  }

  /** A proper prefix, or smaller at the first difference. */
  predicate Precedes(a: Bytes, b: Bytes) {
    exists n :: 0 <= n <= |a| && DiffersAt(a, b, n)
  }

  predicate DiffersAt(a: Bytes, b: Bytes, n: nat)
    requires n <= |a|
  {
    n < |b| && a[..n] == b[..n] && (n < |a| ==> a[n] as int < b[n] as int)
  }

  lemma {:induction false} LessPrecedes(a: Bytes, b: Bytes, i: nat)
    requires i <= |a| && i <= |b| && a[..i] == b[..i] && LessFrom(a, b, i)
    ensures Precedes(a, b)
    decreases |a| - i
  {
    if i < |a| && a[i] == b[i] {
      assert a[..i + 1] == a[..i] + [a[i]] && b[..i + 1] == b[..i] + [b[i]];
      LessPrecedes(a, b, i + 1);
    } else {
      assert DiffersAt(a, b, i);
    }
  }

  lemma {:induction false} DifferenceDecides(a: Bytes, b: Bytes, i: nat, n: nat)
    requires i <= n <= |a| && DiffersAt(a, b, n)
    ensures LessFrom(a, b, i)
    decreases n - i
  {
    if i < n {
      assert a[i] == a[..n][i] == b[..n][i] == b[i];
      DifferenceDecides(a, b, i + 1, n);
    }
  }

  lemma {:induction false} LessIsPrecedes(a: Bytes, b: Bytes)
    ensures Less(a, b) <==> Precedes(a, b)
  {
    if Less(a, b) { LessPrecedes(a, b, 0); }
    if n :| 0 <= n <= |a| && DiffersAt(a, b, n) { DifferenceDecides(a, b, 0, n); }
  }

  lemma {:induction false} LessTotal(a: Bytes, b: Bytes, i: nat)
    requires i <= |a| && i <= |b| && forall j :: 0 <= j < i ==> a[j] == b[j]
    ensures a == b || LessFrom(a, b, i) || LessFrom(b, a, i)
    decreases |a| - i
  {
    if i < |a| && i < |b| && a[i] == b[i] {
      LessTotal(a, b, i + 1);
    }
  }

  lemma {:induction false} LessTransitive(a: Bytes, b: Bytes, c: Bytes, i: nat)
    requires i <= |a| && i <= |b| && i <= |c|
    ensures LessFrom(a, b, i) && LessFrom(b, c, i) ==> LessFrom(a, c, i)
    decreases |a| - i
  {
    if i < |a| && i < |b| && i < |c| {
      LessTransitive(a, b, c, i + 1);
    }
  }

  lemma {:induction false} LessIrreflexive(a: Bytes, i: nat)
    requires i <= |a|
    ensures !LessFrom(a, a, i)
    decreases |a| - i
  {
    if i < |a| {
      LessIrreflexive(a, i + 1);
    }
  }

  predicate Sorted(ks: seq<Bytes>) {
    forall i, j :: 0 <= i < j < |ks| ==> Less(ks[i], ks[j])
  }

  ghost predicate Lists(ks: seq<Bytes>, keys: set<Bytes>) {
    Sorted(ks) && forall k :: k in ks <==> k in keys
  }

  lemma {:induction false} LeastKey(keys: set<Bytes>) returns (least: Bytes)
    requires keys != {}
    ensures least in keys && forall k :: k in keys && k != least ==> Less(least, k)
  {
    least :| least in keys;
    var first, rest := least, keys - {least};
    assert forall k :: k in keys ==> k == first || k in rest;
    if rest != {} {
      var other := LeastKey(rest);
      LessTotal(least, other, 0);
      if Less(other, least) {
        least := other;
      } else {
        forall k | k in rest && k != other ensures Less(least, k) {
          LessTransitive(least, other, k, 0);
        }
      }
    }
  }

  lemma {:induction false} SortedKeysExist(keys: set<Bytes>)
    ensures exists ks :: Lists(ks, keys)
  {
    if keys == {} {
      assert Lists([], keys);
    } else {
      var least := LeastKey(keys);
      SortedKeysExist(keys - {least});
      var rest :| Lists(rest, keys - {least});
      assert Lists([least] + rest, keys);
    }
  }

  /** There is one sorted list of a set of keys. */
  lemma {:induction false} SortedKeysUnique(a: seq<Bytes>, b: seq<Bytes>, keys: set<Bytes>, n: nat)
    requires Lists(a, keys) && Lists(b, keys)
    requires n <= |a| && n <= |b| && forall i :: 0 <= i < n ==> a[i] == b[i]
    ensures a == b
    decreases |a| - n
  {
    assert n < |a| ==> a[n] in keys && a[n] in b;
    assert n < |b| ==> b[n] in keys && b[n] in a;
    if n < |a| && n < |b| {
      var j :| 0 <= j < |b| && b[j] == a[n];
      var l :| 0 <= l < |a| && a[l] == b[n];
      LessTransitive(a[n], b[n], a[n], 0);
      LessIrreflexive(a[n], 0);
      SortedIrreflexive(a, n);
      SortedIrreflexive(b, n);
      SortedKeysUnique(a, b, keys, n + 1);
    } else if n < |a| {
      var j :| 0 <= j < |b| && b[j] == a[n];
      SortedIrreflexive(a, n);
    } else if n < |b| {
      var j :| 0 <= j < |a| && a[j] == b[n];
      SortedIrreflexive(b, n);
    }
  }

  lemma {:induction false} SortedIrreflexive(ks: seq<Bytes>, n: nat)
    requires Sorted(ks) && n < |ks|
    ensures forall i :: 0 <= i < |ks| && i != n ==> ks[i] != ks[n]
  {
    LessIrreflexive(ks[n], 0);
  }

  ghost function SortedKeys(keys: set<Bytes>): (ks: seq<Bytes>)
    ensures Lists(ks, keys)
  {
    SortedKeysExist(keys);
    var ks :| Lists(ks, keys);
    ks
  }

  // ----- The encoding, in front of whatever follows it

  function IntTo(i: JsonInt, tail: Bytes): Bytes {
    if i < 0 then [MINUS] + Dec(-i) + tail else Dec(i) + tail
  }

  /** The rest of a string from position `i`: backslash and quote are escaped, nothing else. */
  function EscapedTo(s: Bytes, i: nat, tail: Bytes): Bytes
    requires i <= |s|
    decreases |s| - i
  {
    if i == |s| then [QUOTE] + tail
    else if s[i] == BACKSLASH || s[i] == QUOTE then [BACKSLASH] + ([s[i]] + EscapedTo(s, i + 1, tail))
    else [s[i]] + EscapedTo(s, i + 1, tail)
  }

  function StringTo(s: Bytes, tail: Bytes): Bytes {
    [QUOTE] + EscapedTo(s, 0, tail)
  }

  ghost function EncTo(v: Json, tail: Bytes): Bytes
    requires Encodable(v)
    decreases v, 1, 0
  {
    match v
    case Null => NULL + tail
    case Bool(b) => (if b then TRUE else FALSE) + tail
    case Number(n) => IntTo(n.i, tail)
    case String(s) => StringTo(s, tail)
    case Array(_) => [OPEN_BRACKET] + ItemsTo(v, 0, tail)
    case Object(members) => [OPEN_BRACE] + MembersTo(v, SortedKeys(members.Keys), 0, tail)
  }

  /** The rest of an array from item `i`. */
  ghost function ItemsTo(v: Json, i: nat, tail: Bytes): Bytes
    requires v.Array? && Encodable(v) && i <= |v.items|
    decreases v, 0, |v.items| - i
  {
    if i == |v.items| then [CLOSE_BRACKET] + tail
    else
      var item := EncTo(v.items[i], ItemsTo(v, i + 1, tail));
      if i == 0 then item else [COMMA] + item
  }

  /** The rest of an object from the key `ks[i]`. */
  ghost function MembersTo(v: Json, ks: seq<Bytes>, i: nat, tail: Bytes): Bytes
    requires v.Object? && Encodable(v) && (forall k :: k in ks ==> k in v.members) && i <= |ks|
    decreases v, 0, |ks| - i
  {
    if i == |ks| then [CLOSE_BRACE] + tail
    else
      var member := StringTo(ks[i], [COLON] + EncTo(v.members[ks[i]], MembersTo(v, ks, i + 1, tail)));
      if i == 0 then member else [COMMA] + member
  }

  /** The canonical bytes of a value. */
  ghost function Canonical(v: Json): Bytes
    requires Encodable(v)
  {
    EncTo(v, [])
  }

  // ----- Unambiguity

  lemma {:induction false} SameHead(x: Byte, s: Bytes, y: Byte, t: Bytes)
    requires [x] + s == [y] + t
    ensures x == y && s == t
  {
    assert s == ([x] + s)[1..] && t == ([y] + t)[1..];
    assert x == ([x] + s)[0];
  }

  lemma {:induction false} SamePrefix(p: Bytes, s: Bytes, t: Bytes)
    requires p + s == p + t
    ensures s == t
  {
    assert s == (p + s)[|p|..] && t == (p + t)[|p|..];
  }

  lemma {:induction false} StringsUnambiguous(a: Bytes, b: Bytes, i: nat, s: Bytes, t: Bytes)
    requires i <= |a| && i <= |b| && (forall j :: 0 <= j < i ==> a[j] == b[j])
    requires EscapedTo(a, i, s) == EscapedTo(b, i, t)
    ensures a == b && s == t
    decreases |a| - i
  {
    var x, y := EscapedTo(a, i, s)[0], EscapedTo(b, i, t)[0];
    SameHead(x, EscapedTo(a, i, s)[1..], y, EscapedTo(b, i, t)[1..]);
    if i < |a| && i < |b| {
      if x == BACKSLASH {
        SameHead(a[i], EscapedTo(a, i + 1, s), b[i], EscapedTo(b, i + 1, t));
      } else {
        SameHead(a[i], EscapedTo(a, i + 1, s), b[i], EscapedTo(b, i + 1, t));
      }
      StringsUnambiguous(a, b, i + 1, s, t);
    } else {
      assert i == |a| && i == |b|;
      SameHead(QUOTE, s, QUOTE, t);
    }
  }

  /** The first byte tells which kind of value follows. */
  predicate Starts(v: Json, b: Byte) {
    match v
    case Null => b == NULL[0]
    case Bool(x) => b == if x then TRUE[0] else FALSE[0]
    case Number(_) => IsDigit(b) || b == MINUS
    case String(_) => b == QUOTE
    case Array(_) => b == OPEN_BRACKET
    case Object(_) => b == OPEN_BRACE
  }

  lemma {:induction false} FirstByte(v: Json, tail: Bytes)
    requires Encodable(v)
    ensures EncTo(v, tail) != [] && Starts(v, EncTo(v, tail)[0])
  {
    if v.Number? && v.n.i >= 0 {
      assert (Dec(v.n.i) + tail)[0] == Dec(v.n.i)[0];
    }
  }

  lemma {:induction false} IntsUnambiguous(i: JsonInt, s: Bytes, j: JsonInt, t: Bytes)
    requires !StartsWithDigit(s) && !StartsWithDigit(t) && IntTo(i, s) == IntTo(j, t)
    ensures i == j && s == t
  {
    if i >= 0 { assert (Dec(i) + s)[0] == Dec(i)[0]; }
    if j >= 0 { assert (Dec(j) + t)[0] == Dec(j)[0]; }
    if i < 0 && j < 0 {
      assert [MINUS] + Dec(-i) + s == [MINUS] + (Dec(-i) + s);
      assert [MINUS] + Dec(-j) + t == [MINUS] + (Dec(-j) + t);
      SameHead(MINUS, Dec(-i) + s, MINUS, Dec(-j) + t);
      DecUnambiguous(-i, s, -j, t);
    } else if i >= 0 && j >= 0 {
      DecUnambiguous(i, s, j, t);
    } else {
      assert false;
    }
  }

  /**
   * Unambiguity: whatever text follows, as long as it does not start with a digit, both the
   * value and the text are determined by the bytes. Objects are equal as maps.
   */
  lemma {:induction false} Unambiguous(v: Json, s: Bytes, w: Json, t: Bytes)
    requires Encodable(v) && Encodable(w) && !StartsWithDigit(s) && !StartsWithDigit(t)
    requires EncTo(v, s) == EncTo(w, t)
    ensures v == w && s == t
    decreases v, 1, 0
  {
    FirstByte(v, s);
    FirstByte(w, t);
    match v
    case Null => SamePrefix(NULL, s, t);
    case Bool(b) => SamePrefix(if b then TRUE else FALSE, s, t);
    case Number(n) => IntsUnambiguous(n.i, s, w.n.i, t);
    case String(x) =>
      SameHead(QUOTE, EscapedTo(x, 0, s), QUOTE, EscapedTo(w.s, 0, t));
      StringsUnambiguous(x, w.s, 0, s, t);
    case Array(_) =>
      SameHead(OPEN_BRACKET, ItemsTo(v, 0, s), OPEN_BRACKET, ItemsTo(w, 0, t));
      ItemsUnambiguous(v, s, w, t, 0);
    case Object(m) =>
      var ks, ls := SortedKeys(m.Keys), SortedKeys(w.members.Keys);
      SameHead(OPEN_BRACE, MembersTo(v, ks, 0, s), OPEN_BRACE, MembersTo(w, ls, 0, t));
      MembersUnambiguous(v, ks, s, w, ls, t, 0);
  }

  lemma {:induction false} ItemsUnambiguous(v: Json, s: Bytes, w: Json, t: Bytes, i: nat)
    requires v.Array? && Encodable(v) && w.Array? && Encodable(w) && i <= |v.items| && i <= |w.items|
    requires forall j :: 0 <= j < i ==> v.items[j] == w.items[j]
    requires ItemsTo(v, i, s) == ItemsTo(w, i, t)
    ensures v == w && s == t
    decreases v, 0, |v.items| - i
  {
    var x, y := ItemsTo(v, i, s), ItemsTo(w, i, t);
    if i < |v.items| { FirstByte(v.items[i], ItemsTo(v, i + 1, s)); }
    if i < |w.items| { FirstByte(w.items[i], ItemsTo(w, i + 1, t)); }
    assert x[0] == y[0];
    if i < |v.items| && i < |w.items| {
      if i > 0 {
        SameHead(COMMA, EncTo(v.items[i], ItemsTo(v, i + 1, s)), COMMA, EncTo(w.items[i], ItemsTo(w, i + 1, t)));
      }
      NoDigitAfterItem(v, i + 1, s);
      NoDigitAfterItem(w, i + 1, t);
      Unambiguous(v.items[i], ItemsTo(v, i + 1, s), w.items[i], ItemsTo(w, i + 1, t));
      ItemsUnambiguous(v, s, w, t, i + 1);
    } else {
      SameHead(CLOSE_BRACKET, s, CLOSE_BRACKET, t);
    }
  }

  lemma {:induction false} NoDigitAfterItem(v: Json, i: nat, tail: Bytes)
    requires v.Array? && Encodable(v) && 0 < i <= |v.items|
    ensures !StartsWithDigit(ItemsTo(v, i, tail))
  {
  }

  lemma {:induction false} NoDigitAfterMember(v: Json, ks: seq<Bytes>, i: nat, tail: Bytes)
    requires v.Object? && Encodable(v) && (forall k :: k in ks ==> k in v.members) && 0 < i <= |ks|
    ensures !StartsWithDigit(MembersTo(v, ks, i, tail))
  {
  }

  /** One member, with the text after it. */
  ghost function MemberText(v: Json, key: Bytes, after: Bytes): Bytes
    requires v.Object? && Encodable(v) && key in v.members
  {
    StringTo(key, [COLON] + EncTo(v.members[key], after))
  }

  lemma {:induction false} MemberUnambiguous(v: Json, key: Bytes, s: Bytes, w: Json, other: Bytes, t: Bytes)
    requires v.Object? && Encodable(v) && key in v.members && w.Object? && Encodable(w) && other in w.members
    requires !StartsWithDigit(s) && !StartsWithDigit(t) && MemberText(v, key, s) == MemberText(w, other, t)
    ensures key == other && v.members[key] == w.members[other] && s == t
    decreases v, 0, 0
  {
    hide EncTo, EscapedTo;
    var value, value' := EncTo(v.members[key], s), EncTo(w.members[other], t);
    SameHead(QUOTE, EscapedTo(key, 0, [COLON] + value), QUOTE, EscapedTo(other, 0, [COLON] + value'));
    StringsUnambiguous(key, other, 0, [COLON] + value, [COLON] + value');
    SameHead(COLON, value, COLON, value');
    Unambiguous(v.members[key], s, w.members[other], t);
  }

  /** Two objects whose sorted keys and whose values agree all along are the same object. */
  lemma {:induction false} SameMembers(v: Json, ks: seq<Bytes>, w: Json)
    requires v.Object? && w.Object? && Lists(ks, v.members.Keys) && Lists(ks, w.members.Keys)
    requires forall j :: 0 <= j < |ks| ==> v.members[ks[j]] == w.members[ks[j]]
    ensures v == w
  {
    hide Sorted;
    assert v.members.Keys == w.members.Keys;
    forall k | k in v.members ensures v.members[k] == w.members[k] {
      assert k in ks;
    }
    assert v.members == w.members;
  }

  /** The text from the key `ks[i]` on, taken apart into its first member and the rest. */
  lemma {:induction false} MembersStep(v: Json, ks: seq<Bytes>, i: nat, s: Bytes)
    requires v.Object? && Encodable(v) && (forall k :: k in ks ==> k in v.members) && i <= |ks|
    ensures i == |ks| ==> MembersTo(v, ks, i, s) == [CLOSE_BRACE] + s
    ensures i < |ks| ==>
              !StartsWithDigit(MembersTo(v, ks, i + 1, s)) &&
              MembersTo(v, ks, i, s) ==
              (if i == 0 then [] else [COMMA]) + MemberText(v, ks[i], MembersTo(v, ks, i + 1, s))
    ensures i < |ks| ==> MembersTo(v, ks, i, s)[0] == if i == 0 then QUOTE else COMMA
  {
    if i < |ks| {
      var member := MemberText(v, ks[i], MembersTo(v, ks, i + 1, s));
      assert [] + member == member;
      NoDigitAfterMember(v, ks, i + 1, s);
    }
  }

  lemma {:induction false} MembersUnambiguous(v: Json, ks: seq<Bytes>, s: Bytes, w: Json, ls: seq<Bytes>, t: Bytes,
        i: nat)
    requires v.Object? && Encodable(v) && w.Object? && Encodable(w) && i <= |ks| && i <= |ls|
    requires Lists(ks, v.members.Keys) && Lists(ls, w.members.Keys)
    requires forall j :: 0 <= j < i ==> ks[j] == ls[j] && v.members[ks[j]] == w.members[ks[j]]
    requires MembersTo(v, ks, i, s) == MembersTo(w, ls, i, t)
    ensures v == w && s == t
    decreases v, 0, |ks| - i + 1
  {
    hide EncTo, EscapedTo, MembersTo, MemberText, LessFrom, Sorted, Encodable;
    MembersStep(v, ks, i, s);
    MembersStep(w, ls, i, t);
    if i < |ks| && i < |ls| {
      var after, after' := MembersTo(v, ks, i + 1, s), MembersTo(w, ls, i + 1, t);
      SamePrefix(if i == 0 then [] else [COMMA], MemberText(v, ks[i], after), MemberText(w, ls[i], after'));
      MemberUnambiguous(v, ks[i], after, w, ls[i], after');
      MembersUnambiguous(v, ks, s, w, ls, t, i + 1);
    } else {
      assert ([CLOSE_BRACE] + s)[0] == CLOSE_BRACE && ([CLOSE_BRACE] + t)[0] == CLOSE_BRACE;
      assert i == |ks| && i == |ls|;
      SameHead(CLOSE_BRACE, s, CLOSE_BRACE, t);
      assert ks == ls;
      SameMembers(v, ks, w);
    }
  }

  /** Equal canonical bytes, equal values: a signature covers one value. */
  lemma {:induction false} CanonicalInjective(v: Json, w: Json)
    requires Encodable(v) && Encodable(w) && Canonical(v) == Canonical(w)
    ensures v == w
  {
    Unambiguous(v, [], w, []);
  }

  /** No encoding is a proper prefix of another, unless a numeral goes on. */
  lemma {:induction false} CanonicalUnambiguous(v: Json, s: Bytes, w: Json, t: Bytes)
    requires Encodable(v) && Encodable(w) && !StartsWithDigit(s) && !StartsWithDigit(t)
    requires Canonical(v) + s == Canonical(w) + t
    ensures v == w && s == t
  {
    EncAppend(v, [], s);
    EncAppend(w, [], t);
    assert [] + s == s && [] + t == t;
    Unambiguous(v, s, w, t);
  }

  // ----- The text that follows is left alone

  lemma {:induction false} EscapedAppend(x: Bytes, i: nat, s: Bytes, t: Bytes)
    requires i <= |x|
    ensures EscapedTo(x, i, s) + t == EscapedTo(x, i, s + t)
    decreases |x| - i
  {
    if i < |x| {
      EscapedAppend(x, i + 1, s, t);
      assert ([x[i]] + EscapedTo(x, i + 1, s)) + t == [x[i]] + (EscapedTo(x, i + 1, s) + t);
    }
  }

  lemma {:induction false} StringAppend(x: Bytes, s: Bytes, t: Bytes)
    ensures StringTo(x, s) + t == StringTo(x, s + t)
  {
    EscapedAppend(x, 0, s, t);
  }

  lemma {:induction false} EncAppend(v: Json, s: Bytes, t: Bytes)
    requires Encodable(v)
    ensures EncTo(v, s) + t == EncTo(v, s + t)
    decreases v, 1, 0
  {
    match v
    case Null =>
    case Bool(_) =>
    case Number(n) =>
    case String(x) => StringAppend(x, s, t);
    case Array(_) => ItemsAppend(v, 0, s, t);
    case Object(m) => MembersAppend(v, SortedKeys(m.Keys), 0, s, t);
  }

  lemma {:induction false} ItemsAppend(v: Json, i: nat, s: Bytes, t: Bytes)
    requires v.Array? && Encodable(v) && i <= |v.items|
    ensures ItemsTo(v, i, s) + t == ItemsTo(v, i, s + t)
    decreases v, 0, |v.items| - i
  {
    if i < |v.items| {
      ItemsAppend(v, i + 1, s, t);
      EncAppend(v.items[i], ItemsTo(v, i + 1, s), t);
    }
  }

  lemma {:induction false} MembersAppend(v: Json, ks: seq<Bytes>, i: nat, s: Bytes, t: Bytes)
    requires v.Object? && Encodable(v) && (forall k :: k in ks ==> k in v.members) && i <= |ks|
    ensures MembersTo(v, ks, i, s) + t == MembersTo(v, ks, i, s + t)
    decreases v, 0, |ks| - i
  {
    if i < |ks| {
      var after := MembersTo(v, ks, i + 1, s);
      MembersAppend(v, ks, i + 1, s, t);
      EncAppend(v.members[ks[i]], after, t);
      StringAppend(ks[i], [COLON] + EncTo(v.members[ks[i]], after), t);
      assert ([COLON] + EncTo(v.members[ks[i]], after)) + t == [COLON] + (EncTo(v.members[ks[i]], after) + t);
    }
  }

  // ----- The encoder, which appends to a buffer

  class ByteBuffer {
    var data: Bytes

    constructor ()
      ensures data == []
    {
      data := [];
    }

    method Push(b: Byte)
      modifies this
      ensures data == old(data) + [b]
    {
      data := data + [b];
    }

    method Extend(bytes: Bytes)
      modifies this
      ensures data == old(data) + bytes
    {
      data := data + bytes;
    }
  }

  method ToCanonicalBytes(v: Json) returns (r: Result<Bytes, JsonError>)
    ensures r.Success? <==> Encodable(v)
    ensures r.Success? ==> r.value == Canonical(v)
  {
    var out := new ByteBuffer();
    var _ :- Encode(v, out);
    return Success(out.data);
  }

  method Encode(v: Json, out: ByteBuffer) returns (r: Result<Unit, JsonError>)
    modifies out
    ensures r.Success? <==> Encodable(v)
    ensures r.Success? ==> out.data == old(out.data) + Canonical(v)
    ensures old(out.data) <= out.data
    decreases v, 1, 0
  {
    match v {
    case Null => out.Extend(NULL);
    case Bool(b) => out.Extend(if b then TRUE else FALSE);
    case Number(n) =>
      match n {
        case Integer(i) =>
          // `as_i64` and `as_u64` print alike
          if i < 0 { out.Extend([MINUS] + Dec(-i)); } else { out.Extend(Dec(i)); }
        case Float(_) => return Failure(NonIntegerNumber);
      }
    case String(s) => EncodeString(s, out);
    case Array(_) => var _ :- EncodeItems(v, out);
    case Object(_) => var _ :- EncodeMembers(v, out);
    }
    return Success(Unit.Unit);
  }

  function Separator(i: nat): Bytes {
    if i > 0 then [COMMA] else []
  }

  /** The array up to and without item `i`. */
  ghost function ItemsUpTo(v: Json, i: nat): Bytes
    requires v.Array? && Encodable(v) && i <= |v.items|
    decreases i
  {
    if i == 0 then [OPEN_BRACKET] else ItemsUpTo(v, i - 1) + (Separator(i - 1) + Canonical(v.items[i - 1]))
  }

  lemma {:induction false} ItemsComplete(v: Json, i: nat)
    requires v.Array? && Encodable(v) && i <= |v.items|
    ensures ItemsUpTo(v, i) + ItemsTo(v, i, []) == Canonical(v)
    decreases i
  {
    if i > 0 {
      ItemsComplete(v, i - 1);
      ItemBefore(v, i - 1);
      Associative(ItemsUpTo(v, i - 1), Separator(i - 1) + Canonical(v.items[i - 1]), ItemsTo(v, i, []));
    }
  }

  lemma {:induction false} ItemBefore(v: Json, i: nat)
    requires v.Array? && Encodable(v) && i < |v.items|
    ensures ItemsTo(v, i, []) == (Separator(i) + Canonical(v.items[i])) + ItemsTo(v, i + 1, [])
  {
    var rest := ItemsTo(v, i + 1, []);
    EncAppend(v.items[i], [], rest);
    assert [] + rest == rest;
    Associative(Separator(i), Canonical(v.items[i]), rest);
  }

  lemma {:induction false} Associative(a: Bytes, b: Bytes, c: Bytes)
    ensures (a + b) + c == a + (b + c) && [] + a == a
  {
  }

  lemma {:induction false} AppendOneMore(start: Bytes, sofar: Bytes, sep: Bytes, more: Bytes)
    ensures ((start + sofar) + sep) + more == start + (sofar + (sep + more))
  {
  }

  method EncodeItems(v: Json, out: ByteBuffer) returns (r: Result<Unit, JsonError>)
    requires v.Array?
    modifies out
    ensures r.Success? <==> Encodable(v)
    ensures r.Success? ==> out.data == old(out.data) + Canonical(v)
    ensures old(out.data) <= out.data
    decreases v, 0, 1
  {
    out.Push(OPEN_BRACKET);
    for i := 0 to |v.items|
      invariant forall j :: 0 <= j < i ==> Encodable(v.items[j])
      invariant old(out.data) <= out.data
      invariant Encodable(v) ==> out.data == old(out.data) + ItemsUpTo(v, i)
    {
      out.Extend(Separator(i));
      var _ :- Encode(v.items[i], out);
      if Encodable(v) { AppendOneMore(old(out.data), ItemsUpTo(v, i), Separator(i), Canonical(v.items[i])); }
    }
    assert Encodable(v);
    ItemsComplete(v, |v.items|);
    out.Push(CLOSE_BRACKET);
    return Success(Unit.Unit);
  }

  ghost function Member(v: Json, k: Bytes): Bytes
    requires v.Object? && Encodable(v) && k in v.members
  {
    StringTo(k, []) + ([COLON] + Canonical(v.members[k]))
  }

  /** The object up to and without the key `ks[i]`. */
  ghost function MembersUpTo(v: Json, ks: seq<Bytes>, i: nat): Bytes
    requires v.Object? && Encodable(v) && (forall k :: k in ks ==> k in v.members) && i <= |ks|
    decreases i
  {
    if i == 0 then [OPEN_BRACE] else MembersUpTo(v, ks, i - 1) + (Separator(i - 1) + Member(v, ks[i - 1]))
  }

  lemma {:induction false} MemberBefore(v: Json, k: Bytes, rest: Bytes)
    requires v.Object? && Encodable(v) && k in v.members
    ensures StringTo(k, [COLON] + EncTo(v.members[k], rest)) == Member(v, k) + rest
  {
    var value := Canonical(v.members[k]);
    EncAppend(v.members[k], [], rest);
    assert [] + rest == rest;
    StringAppend(k, [], [COLON] + (value + rest));
    Associative([COLON] + (value + rest), [], []);
    Associative([COLON], value, rest);
    Associative(StringTo(k, []), [COLON] + value, rest);
  }

  lemma {:induction false} MembersComplete(v: Json, ks: seq<Bytes>, i: nat)
    requires v.Object? && Encodable(v) && ks == SortedKeys(v.members.Keys) && i <= |ks|
    ensures MembersUpTo(v, ks, i) + MembersTo(v, ks, i, []) == Canonical(v)
    decreases i
  {
    if i > 0 {
      var sep, member, rest := Separator(i - 1), Member(v, ks[i - 1]), MembersTo(v, ks, i, []);
      MembersComplete(v, ks, i - 1);
      MemberBefore(v, ks[i - 1], rest);
      Associative(sep, member, rest);
      Associative(member, [], []);
      Associative(MembersUpTo(v, ks, i - 1), sep + member, rest);
    }
  }

  method EncodeMembers(v: Json, out: ByteBuffer) returns (r: Result<Unit, JsonError>)
    requires v.Object?
    modifies out
    ensures r.Success? <==> Encodable(v)
    ensures r.Success? ==> out.data == old(out.data) + Canonical(v)
    ensures old(out.data) <= out.data
    decreases v, 0, 2
  {
    var keys := SortedKeyList(v.members.Keys);
    assert forall k :: k in keys <==> k in v.members;
    var _ :- EncodeMembersInOrder(v, keys, out);
    MembersComplete(v, keys, |keys|);
    out.Push(CLOSE_BRACE);
    return Success(Unit.Unit);
  }

  method EncodeMembersInOrder(v: Json, keys: seq<Bytes>, out: ByteBuffer) returns (r: Result<Unit, JsonError>)
    requires v.Object? && forall k :: k in keys <==> k in v.members
    modifies out
    ensures r.Success? <==> Encodable(v)
    ensures r.Success? ==> out.data == old(out.data) + MembersUpTo(v, keys, |keys|)
    ensures old(out.data) <= out.data
    decreases v, 0, 1
  {
    hide Member, EncTo;
    out.Push(OPEN_BRACE);
    for i := 0 to |keys|
      invariant forall j :: 0 <= j < i ==> Encodable(v.members[keys[j]])
      invariant old(out.data) <= out.data
      invariant Encodable(v) ==> out.data == old(out.data) + MembersUpTo(v, keys, i)
    {
      out.Extend(Separator(i));
      var _ :- EncodeMember(v, keys[i], out);
      if Encodable(v) { AppendOneMore(old(out.data), MembersUpTo(v, keys, i), Separator(i), Member(v, keys[i])); }
    }
    return Success(Unit.Unit);
  }

  method EncodeMember(v: Json, key: Bytes, out: ByteBuffer) returns (r: Result<Unit, JsonError>)
    requires v.Object? && key in v.members
    modifies out
    ensures r.Success? <==> Encodable(v.members[key])
    ensures r.Success? && Encodable(v) ==> out.data == old(out.data) + Member(v, key)
    ensures old(out.data) <= out.data
    decreases v, 0, 0
  {
    EncodeString(key, out);
    out.Push(COLON);
    r := Encode(v.members[key], out);
  }

  /** The keys of a map come in any order and are then sorted. */
  method SortedKeyList(keys: set<Bytes>) returns (sorted: seq<Bytes>)
    ensures sorted == SortedKeys(keys) && forall k :: k in sorted <==> k in keys
    ensures forall i, j :: 0 <= i < j < |sorted| ==> Precedes(sorted[i], sorted[j])
  {
    sorted := [];
    var rest := keys;
    while rest != {}
      invariant rest <= keys && Lists(sorted, keys - rest)
      decreases rest
    {
      var key :| key in rest;
      var at := 0;
      while at < |sorted| && Less(sorted[at], key)
        invariant at <= |sorted| && forall j :: 0 <= j < at ==> Less(sorted[j], key)
      {
        at := at + 1;
      }
      InsertSorted(sorted, key, at, keys - rest);
      sorted := sorted[..at] + [key] + sorted[at..];
      assert keys - rest + {key} == keys - (rest - {key});
      rest := rest - {key};
    }
    assert keys - {} == keys;
    SortedKeysUnique(sorted, SortedKeys(keys), keys, 0);
    forall i, j | 0 <= i < j < |sorted| ensures Precedes(sorted[i], sorted[j]) {
      LessIsPrecedes(sorted[i], sorted[j]);
    }
  }

  lemma {:induction false} InsertSorted(ks: seq<Bytes>, key: Bytes, at: nat, keys: set<Bytes>)
    requires Lists(ks, keys) && key !in keys && at <= |ks|
    requires forall j :: 0 <= j < at ==> Less(ks[j], key)
    requires at < |ks| ==> !Less(ks[at], key)
    ensures Lists(ks[..at] + [key] + ks[at..], keys + {key})
  {
    var more := ks[..at] + [key] + ks[at..];
    forall j | at <= j < |ks| ensures Less(key, ks[j]) {
      assert ks[at] in keys;
      LessTotal(key, ks[at], 0);
      LessTransitive(key, ks[at], ks[j], 0);
    }
    assert forall k :: k in more <==> k in ks || k == key;
  }

  method EncodeString(s: Bytes, out: ByteBuffer)
    modifies out
    ensures out.data == old(out.data) + StringTo(s, [])
  {
    out.Push(QUOTE);
    for i := 0 to |s|
      invariant out.data + EscapedTo(s, i, []) == old(out.data) + StringTo(s, [])
    {
      if s[i] == BACKSLASH {
        out.Extend([BACKSLASH, BACKSLASH]);
      } else if s[i] == QUOTE {
        out.Extend([BACKSLASH, QUOTE]);
      } else {
        out.Push(s[i]);
      }
    }
    out.Push(QUOTE);
  }
}
