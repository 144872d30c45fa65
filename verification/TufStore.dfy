/** cache.rs: the store of metadata files, as a map whose writes may fail. */
module TufStore {
  import opened Prelude

  type Blobs = map<string, Bytes>

  datatype Write = Write(name: string, bytes: Bytes)

  /** The first `n` writes, each of them effective or not as `outcomes` says from `offset` on. */
  function WriteSome(blobs: Blobs, writes: seq<Write>, outcomes: seq<bool>, offset: nat, n: nat): Blobs
    requires n <= |writes| && offset + n <= |outcomes|
  {
    if n == 0 then blobs
    else
      var before := WriteSome(blobs, writes, outcomes, offset, n - 1);
      if outcomes[offset + n - 1] then before[writes[n - 1].name := writes[n - 1].bytes] else before
  }

  /** The first `n` writes, all of them effective. */
  function WriteAll(blobs: Blobs, writes: seq<Write>, n: nat): Blobs
    requires n <= |writes|
  {
    if n == 0 then blobs
    else WriteAll(blobs, writes, n - 1)[writes[n - 1].name := writes[n - 1].bytes]
  }

  /** These writes, and no others, took a store from one content to another; the outcomes were recorded. */
  predicate Wrote(a: Blobs, before: seq<bool>, writes: seq<Write>, b: Blobs, after: seq<bool>) {
    && before <= after && |after| == |before| + |writes|
    && b == WriteSome(a, writes, after, |before|, |writes|)
  }

  predicate AllEffective(before: seq<bool>, after: seq<bool>) {
    forall i :: |before| <= i < |after| ==> after[i]
  }

  lemma {:induction false} WroteOne(a: Blobs, o: seq<bool>, w: Write, ok: bool)
    ensures Wrote(a, o, [w], if ok then a[w.name := w.bytes] else a, o + [ok])
  {
    var p := o + [ok];
    assert WriteSome(a, [w], p, |o|, 0) == a;
    assert p[|o|] == ok;
  }

  lemma {:induction false} WriteSomePrefix(a: Blobs, ws: seq<Write>, vs: seq<Write>, o: seq<bool>, p: seq<bool>,
        offset: nat, n: nat)
    requires n <= |ws| && offset + n <= |o| && o <= p
    ensures WriteSome(a, ws + vs, p, offset, n) == WriteSome(a, ws, o, offset, n)
  {
    if n > 0 { WriteSomePrefix(a, ws, vs, o, p, offset, n - 1); }
  }

  lemma {:induction false} WriteSomeThen(a: Blobs, ws: seq<Write>, vs: seq<Write>, p: seq<bool>, offset: nat, n: nat)
    requires n <= |vs| && offset + |ws| + n <= |p|
    ensures WriteSome(a, ws + vs, p, offset, |ws| + n) ==
            WriteSome(WriteSome(a, ws + vs, p, offset, |ws|), vs, p, offset + |ws|, n)
  {
    if n > 0 {
      WriteSomeThen(a, ws, vs, p, offset, n - 1);
      assert (ws + vs)[|ws| + n - 1] == vs[n - 1];
    }
  }

  lemma {:induction false} WroteThen(a: Blobs, o: seq<bool>, ws: seq<Write>, b: Blobs, p: seq<bool>, vs: seq<Write>,
        c: Blobs, q: seq<bool>)
    requires Wrote(a, o, ws, b, p) && Wrote(b, p, vs, c, q)
    ensures Wrote(a, o, ws + vs, c, q)
  {
    WriteSomePrefix(a, ws, vs, p, q, |o|, |ws|);
    WriteSomeThen(a, ws, vs, q, |o|, |vs|);
  }

  /** If every write was effective, the content is that of all the writes in order. */
  lemma {:induction false} EffectiveWrites(a: Blobs, ws: seq<Write>, outcomes: seq<bool>, offset: nat, n: nat)
    requires n <= |ws| && offset + n <= |outcomes| && forall i :: offset <= i < |outcomes| ==> outcomes[i]
    ensures WriteSome(a, ws, outcomes, offset, n) == WriteAll(a, ws, n)
  {
    if n > 0 { EffectiveWrites(a, ws, outcomes, offset, n - 1); }
  }

  lemma {:induction false} WroteAll(a: Blobs, o: seq<bool>, ws: seq<Write>, b: Blobs, p: seq<bool>)
    requires Wrote(a, o, ws, b, p) && AllEffective(o, p)
    ensures b == WriteAll(a, ws, |ws|)
  {
    EffectiveWrites(a, ws, p, |o|, |ws|);
  }

  /** A file is as it was, or holds the bytes of one of the writes to it. */
  predicate UnchangedOrWritten(a: Blobs, ws: seq<Write>, b: Blobs, name: string) {
    || (if name in a then name in b && b[name] == a[name] else name !in b)
    || exists i :: 0 <= i < |ws| && ws[i].name == name && name in b && b[name] == ws[i].bytes
  }

  lemma {:induction false} EachFileUnchangedOrWritten(a: Blobs, ws: seq<Write>, outcomes: seq<bool>,
        offset: nat, n: nat, name: string)
    requires n <= |ws| && offset + n <= |outcomes|
    ensures UnchangedOrWritten(a, ws, WriteSome(a, ws, outcomes, offset, n), name)
  {
    if n > 0 { EachFileUnchangedOrWritten(a, ws, outcomes, offset, n - 1, name); }
  }

  lemma {:induction false} WriteAllPrefix(a: Blobs, ws: seq<Write>, vs: seq<Write>, n: nat)
    requires n <= |ws|
    ensures WriteAll(a, ws + vs, n) == WriteAll(a, ws, n)
  {
    if n > 0 { WriteAllPrefix(a, ws, vs, n - 1); }
  }

  lemma {:induction false} WriteAllThen(a: Blobs, ws: seq<Write>, vs: seq<Write>, n: nat)
    requires n <= |vs|
    ensures WriteAll(a, ws + vs, |ws| + n) == WriteAll(WriteAll(a, ws, |ws|), vs, n)
  {
    if n == 0 {
      WriteAllPrefix(a, ws, vs, |ws|);
    } else {
      WriteAllThen(a, ws, vs, n - 1);
      assert (ws + vs)[|ws| + n - 1] == vs[n - 1];
    }
  }

  /** A store of files by name; a write may fail, and then it leaves the store as it was. */
  class MetadataStore {
    var blobs: Blobs
    ghost var outcomes: seq<bool>

    constructor (blobs: Blobs)
      ensures this.blobs == blobs && outcomes == []
    {
      this.blobs := blobs;
      outcomes := [];
    }

    method Load(name: string) returns (r: Option<Bytes>)
      ensures r == if name in blobs then Some(blobs[name]) else None
    {
      return if name in blobs then Some(blobs[name]) else None;
    }

    method Store(name: string, bytes: Bytes) returns (ok: bool)
      modifies this
      ensures outcomes == old(outcomes) + [ok]
      ensures blobs == if ok then old(blobs)[name := bytes] else old(blobs)
    {
      ok := *;
      if ok {
        blobs := blobs[name := bytes];
      }
      outcomes := outcomes + [ok];
    }
  }
}
