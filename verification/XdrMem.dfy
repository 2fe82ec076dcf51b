/** The memory stream of `spl-xdr.c`: a byte buffer and a cursor that every operation advances. */
module XdrMem {
  import opened Options
  import opened Xdr
  import opened XdrProofs
  import opened XdrWire

  lemma NothingEncoded(t: Type)
    requires TypeOk(t)
    ensures EncodeAll(t, []) == Some([])
  {}

  lemma JoinIs(x: seq<byte>, y: Option<seq<byte>>)
    ensures Join(Some(x), y) == if y.Some? then Some(x + y.value) else None
  {}

  /** A prefix of an array that encodes, encodes; and takes no more room. */
  lemma {:induction false} PrefixEncodes(t: Type, vs: seq<Value>, i: nat)
    requires TypeOk(t) && (forall j :: 0 <= j < |vs| ==> HasType(t, vs[j])) && i <= |vs| && EncodeAll(t, vs).Some?
    ensures EncodeAll(t, vs[..i]).Some? && |EncodeAll(t, vs[..i]).value| <= |EncodeAll(t, vs).value|
    decreases |vs|
  {
    hide Encode, HasType, TypeOk;
    if i == |vs| {
      assert vs[..i] == vs;
    } else {
      var n := |vs| - 1;
      PrefixEncodes(t, vs[..n], i);
      assert vs[..n][..i] == vs[..i];
    }
  }

  lemma EncodeNext(t: Type, vs: seq<Value>, i: nat)
    requires TypeOk(t) && (forall j :: 0 <= j < |vs| ==> HasType(t, vs[j])) && i < |vs|
    ensures EncodeAll(t, vs[..i+1]) == Join(EncodeAll(t, vs[..i]), Encode(t, vs[i]))
  {
    hide Encode, HasType, TypeOk;
    assert vs[..i+1][..i] == vs[..i];
  }

  lemma NoItems(t: Type, s: seq<byte>)
    requires TypeOk(t)
    ensures DecodeAll(t, s, 0) == Some(([], 0))
  {}

  lemma NeedsNext(t: Type, vs: seq<Value>, v: Value)
    ensures NeedsAll(t, vs + [v]) == NeedsAll(t, vs) + Needs(t, v)
  {
    assert (vs + [v])[..|vs|] == vs;
  }

  /** A longer array needs at least as much as the items before. */
  lemma {:induction false} NeedsGrow(t: Type, s: seq<byte>, i: nat, count: nat)
    requires TypeOk(t) && i <= count && DecodeAll(t, s, count).Some?
    ensures DecodeAll(t, s, i).Some? && NeedsAll(t, DecodeAll(t, s, i).value.0) <= NeedsAll(t, DecodeAll(t, s, count).value.0)
    decreases count
  {
    hide Decode, TypeOk, NeedsAll;
    if i < count {
      NeedsGrow(t, s, i, count - 1);
      var (vs, k) := DecodeAll(t, s, count - 1).value;
      NeedsNext(t, vs, Decode(t, s[k..]).value.0);
    }
  }

  /** Decoding all items when only `mem` allocations succeed. */
  ghost predicate ItemsWithin(t: Type, s: seq<byte>, count: nat, mem: nat)
    requires TypeOk(t)
  {
    DecodeAll(t, s, count).Some? && NeedsAll(t, DecodeAll(t, s, count).value.0) <= mem
  }

  lemma ItemsFail(t: Type, s: seq<byte>, i: nat, count: nat, mem: nat)
    requires TypeOk(t) && i <= count && !ItemsWithin(t, s, i, mem)
    ensures !ItemsWithin(t, s, count, mem)
  {
    hide DecodeAll, TypeOk, NeedsAll;
    if DecodeAll(t, s, count).Some? { NeedsGrow(t, s, i, count); }
  }

  lemma ItemsDone(t: Type, s: seq<byte>, vs: seq<Value>, k: nat, mem: nat)
    requires TypeOk(t) && DecodeAll(t, s, |vs|) == Some((vs, k)) && NeedsAll(t, vs) <= mem
    ensures ItemsWithin(t, s, |vs|, mem)
  {}

  lemma ItemFailed(t: Type, s: seq<byte>, vs: seq<Value>, k: nat, mem: nat, left: nat)
    requires TypeOk(t) && DecodeAll(t, s, |vs|) == Some((vs, k)) && k <= |s|
    requires NeedsAll(t, vs) + left == mem && DecodeWithin(t, s[k..], left) == None
    ensures !ItemsWithin(t, s, |vs| + 1, mem)
  {
    hide Decode, TypeOk, NeedsAll, Needs;
    if Decode(t, s[k..]).Some? { NeedsNext(t, vs, Decode(t, s[k..]).value.0); }
  }

  lemma NoNeeds(t: Type)
    ensures NeedsAll(t, []) == 0
  {}

  lemma WithinMeans(t: Type, s: seq<byte>, mem: nat, v: Value, k: nat)
    requires TypeOk(t) && DecodeWithin(t, s, mem) == Some((v, k))
    ensures Decode(t, s) == Some((v, k)) && Needs(t, v) <= mem
  {}

  lemma ArrayWithin(max: nat, elsize: nat, elem: Type, s: seq<byte>, mem: nat)
    requires TypeOk(Array(max, elsize, elem))
    ensures var d := DecodeWithin(Array(max, elsize, elem), s, mem);
      && (mem == 0 || |s| < 4 ==> d == None)
      && (mem > 0 && |s| >= 4 ==>
        var size := FromBe32(s);
        && (!ArrayOk(size, max, elsize) ==> d == None)
        && (ArrayOk(size, max, elsize) ==>
          var r := DecodeAll(elem, s[4..], size);
          d == if ItemsWithin(elem, s[4..], size, mem - 1) then Some((Items(r.value.0), 4 + r.value.1)) else None))
  {
    hide FromBe32, Decode, DecodeAll, NeedsAll;
    ArrayDecodes(max, elsize, elem, s);
  }

  lemma ArrayNeeds(max: nat, elsize: nat, elem: Type, vs: seq<Value>)
    ensures Needs(Array(max, elsize, elem), Items(vs)) == 1 + NeedsAll(elem, vs)
  {}

  lemma PairFails(a: Type, b: Type, s: seq<byte>, mem: nat)
    requires TypeOk(Pair(a, b)) && DecodeWithin(a, s, mem) == None
    ensures DecodeWithin(Pair(a, b), s, mem) == None
  {
    hide Decode, Needs;
    PairUnfolds(a, b, s);
    var x := Decode(a, s);
    if x.Some? {
      var y := Decode(b, s[x.value.1..]);
      if y.Some? { PairNeeds(a, b, x.value.0, y.value.0); }
    }
  }

  lemma PairGoesOn(a: Type, b: Type, s: seq<byte>, mem: nat, v: Value, k: nat)
    requires TypeOk(Pair(a, b)) && DecodeWithin(a, s, mem) == Some((v, k))
    ensures k <= |s| && Needs(a, v) <= mem
    ensures DecodeWithin(Pair(a, b), s, mem) == Then((v, k), DecodeWithin(b, s[k..], mem - Needs(a, v)))
  {
    hide Decode, Needs;
    PairUnfolds(a, b, s);
    var y := Decode(b, s[k..]);
    if y.Some? { PairNeeds(a, b, v, y.value.0); }
  }

  lemma PairOk(a: Type, b: Type)
    requires TypeOk(Pair(a, b))
    ensures TypeOk(a) && TypeOk(b)
  {}

  lemma PairNeeds(a: Type, b: Type, x: Value, y: Value)
    ensures Needs(Pair(a, b), Both(x, y)) == Needs(a, x) + Needs(b, y)
  {}

  lemma ArrayEncodes(max: nat, elsize: nat, elem: Type, vs: seq<Value>)
    requires TypeOk(Array(max, elsize, elem)) && HasType(Array(max, elsize, elem), Items(vs))
    ensures var e := Encode(Array(max, elsize, elem), Items(vs));
      e == if ArrayOk(|vs|, max, elsize) then Join(Some(Be32(|vs|)), EncodeAll(elem, vs)) else None
  {}

  /** What decoding promises: the result of the specification, and a cursor that stays within the buffer. */
  ghost predicate Decoded(from: nat, to: nat, end: nat, d: Option<(Value, nat)>, r: Option<Value>) {
    && from <= to <= end && (r.Some? <==> d.Some?)
    && (r.Some? ==> d == Some((r.value, to - from)))
  }

  lemma DecodedMeans(from: nat, to: nat, end: nat, d: Option<(Value, nat)>, r: Option<Value>)
    requires Decoded(from, to, end, d, r)
    ensures from <= to <= end && (r == None ==> d == None) && (r.Some? ==> d == Some((r.value, to - from)))
  {}

  lemma DecodedMade(from: nat, to: nat, end: nat, d: Option<(Value, nat)>, r: Option<Value>)
    requires from <= to <= end && (r == None ==> d == None) && (r.Some? ==> d == Some((r.value, to - from)))
    ensures Decoded(from, to, end, d, r)
  {}

  lemma SliceOfSlice(s: seq<byte>, p: nat, e: nat, a: nat, b: nat)
    requires p + b <= e <= |s| && a <= b
    ensures s[p..e][a..b] == s[p+a..p+b]
  {
    forall i | 0 <= i < b - a ensures s[p..e][a..b][i] == s[p+a..p+b][i] {}
  }

  lemma ArrayDecodes(max: nat, elsize: nat, elem: Type, s: seq<byte>)
    requires TypeOk(Array(max, elsize, elem))
    ensures var d := Decode(Array(max, elsize, elem), s);
      && (|s| < 4 ==> d == None)
      && (|s| >= 4 ==>
        var size := FromBe32(s);
        && (!ArrayOk(size, max, elsize) ==> d == None)
        && (ArrayOk(size, max, elsize) ==>
          var r := DecodeAll(elem, s[4..], size);
          d == if r.Some? then Some((Items(r.value.0), 4 + r.value.1)) else None))
  {
    hide FromBe32, DecodeAll, DecFixed, DecText, DecWide, DecNum, Then;
  }

  class XdrMem {
    const buf: array<byte>
    const end: nat
    var pos: nat

    ghost predicate Valid()
      reads this
    {
      pos <= end <= buf.Length
    }

    /** What has been written. */
    ghost function Out(): seq<byte>
      requires Valid()
      reads this, buf
    {
      buf[..pos]
    }

    /** What is left to read. */
    ghost function In(): seq<byte>
      requires Valid()
      reads this, buf
    {
      buf[pos..end]
    }

    /** A stream over the first `size` bytes of a buffer. */
    constructor (buf: array<byte>, size: nat)
      requires size <= buf.Length
      ensures this.buf == buf && end == size && pos == 0 && Valid()
    {
      this.buf, end, pos := buf, size, 0;
    }

    // -------------------------------------------------------------- encoding

    /** `xdrmem_enc_uint32` */
    method EncWord(n: nat) returns (ok: bool)
      requires Valid() && n < 0x1_0000_0000
      modifies `pos, buf
      ensures Valid() && (ok <==> old(pos) + 4 <= end)
      ensures Out() == old(Out()) + if ok then Be32(n) else []
      ensures ok ==> pos == old(pos) + 4 && buf[old(pos)] == n / 0x100_0000 % 256 && buf[old(pos)+1] == n / 0x1_0000 % 256
                     && buf[old(pos)+2] == n / 0x100 % 256 && buf[old(pos)+3] == n % 256
    {
      if pos + 4 > end { return false; }
      var w := Be32(n);
      hide Be32;
      assert w[0] == n / 0x100_0000 % 256 && w[1] == n / 0x1_0000 % 256 && w[2] == n / 0x100 % 256 && w[3] == n % 256 by { WordBytes(n); }
      buf[pos], buf[pos+1], buf[pos+2], buf[pos+3] := w[0], w[1], w[2], w[3];
      pos := pos + 4;
      return true;
    }

    /** `memcpy` to the cursor. */
    method Copy(b: seq<byte>)
      requires Valid() && pos + |b| <= end
      modifies `pos, buf
      ensures Valid() && Out() == old(Out()) + b
    {
      for i := 0 to |b|
        invariant pos == old(pos) && Valid()
        invariant buf[..pos] == old(buf[..pos]) && buf[pos..pos+i] == b[..i]
      {
        buf[pos+i] := b[i];
        assert buf[pos..pos+i+1] == buf[pos..pos+i] + [b[i]];
      }
      pos := pos + |b|;
      assert buf[..pos] == buf[..old(pos)] + buf[old(pos)..pos];
    }

    /** `xdrmem_enc_bytes`; a null pointer is refused. */
    method EncOpaque(cp: Option<seq<byte>>, cnt: nat) returns (ok: bool)
      requires Valid() && cnt < W32 && (cp.Some? ==> |cp.value| == cnt)
      modifies `pos, buf
      ensures Valid()
      ensures cp == None ==> !ok
      ensures cp.Some? ==> (ok <==> EncBytes(cp.value).Some? && old(pos) + |EncBytes(cp.value).value| <= end)
      ensures Out() == old(Out()) + if ok then EncBytes(cp.value).value else []
    {
      var size := Roundup(cnt);
      hide Roundup;
      if size < cnt { return false; }
      if end - pos < size { return false; }
      if cp == None { return false; }
      Copy(cp.value);
      Copy(Zeros(size - cnt));
      return true;
    }

    /** Room for an encoding, and the encoding written. */
    ghost predicate Fits(e: Option<seq<byte>>)
      requires Valid()
      reads this
    {
      e.Some? && pos + |e.value| <= end
    }

    /** `xdrmem_enc_ulonglong` */
    method EncHyper(n: nat) returns (ok: bool)
      requires Valid() && n < 0x1_0000_0000_0000_0000
      modifies `pos, buf
      ensures Valid() && (ok <==> old(Fits(Encode(Hyper, Num(n))))) && old(Out()) <= Out()
      ensures ok ==> Out() == old(Out()) + Encode(Hyper, Num(n)).value
    {
      ok := EncWord(n / 0x1_0000_0000);
      if ok { ok := EncWord(n % 0x1_0000_0000); }
    }

    /** `xdr_enc_string` */
    method EncString(b: seq<byte>, max: nat) returns (ok: bool)
      requires Valid() && max < W32 && 0 !in b
      modifies `pos, buf
      ensures Valid() && (ok <==> old(Fits(Encode(String(max), Bytes(b))))) && old(Out()) <= Out()
      ensures ok ==> Out() == old(Out()) + Encode(String(max), Bytes(b)).value
    {
      hide EncBytes, Be32;
      if |b| > max { return false; }
      ok := EncWord(|b|);
      if ok { ok := EncOpaque(Some(b), |b|); }
    }

    /** A client's `xdrproc_t`, encoding. */
    method Enc(t: Type, v: Value) returns (ok: bool)
      requires Valid() && TypeOk(t) && HasType(t, v)
      modifies `pos, buf
      ensures Valid() && (ok <==> old(Fits(Encode(t, v))))
      ensures ok ==> Out() == old(Out()) + Encode(t, v).value
      ensures old(Out()) <= Out()
      decreases t, 0
    {
      hide EncBytes, Be32;
      match t {
        case Hyper => ok := EncHyper(v.n);
        case Opaque(cnt) =>
          ok := EncOpaque(Some(v.b), cnt);
        case String(max) => ok := EncString(v.b, max);
        case Array(max, elsize, elem) =>
          ok := EncArray(max, elsize, elem, v.vs);
        case Pair(a, b) =>
          ok := Enc(a, v.a);
          if ok { ok := Enc(b, v.b2); }
        case _ =>
          ok := EncWord(v.n);
      }
    }

    /** `xdr_enc_array` */
    method EncArray(max: nat, elsize: nat, elem: Type, vs: seq<Value>) returns (ok: bool)
      requires Valid() && TypeOk(Array(max, elsize, elem)) && HasType(Array(max, elsize, elem), Items(vs))
      modifies `pos, buf
      ensures Valid() && (ok <==> old(Fits(Encode(Array(max, elsize, elem), Items(vs)))))
      ensures ok ==> Out() == old(Out()) + Encode(Array(max, elsize, elem), Items(vs)).value
      ensures old(Out()) <= Out()
      decreases elem, 2 + |vs|
    {
      hide Encode;
      ArrayEncodes(max, elsize, elem, vs);
      if |vs| > max || |vs| > UINT_MAX / elsize { return false; }
      ok := EncWord(|vs|);
      if ok { ok := EncItems(elem, vs); }
    }

    /** The loop of `xdr_enc_array`. */
    method EncItems(elem: Type, vs: seq<Value>) returns (ok: bool)
      requires Valid() && TypeOk(elem) && forall i :: 0 <= i < |vs| ==> HasType(elem, vs[i])
      modifies `pos, buf
      ensures Valid() && (ok <==> old(Fits(EncodeAll(elem, vs))))
      ensures ok ==> Out() == old(Out()) + EncodeAll(elem, vs).value
      ensures old(Out()) <= Out()
      decreases elem, 1 + |vs|
    {
      hide Encode, EncodeAll, HasType, TypeOk, Join;
      ghost var x: seq<byte> := [];
      NothingEncoded(elem);
      assert vs[..0] == [];
      for i := 0 to |vs|
        invariant Valid() && EncodeAll(elem, vs[..i]) == Some(x) && Out() == old(Out()) + x
      {
        EncodeNext(elem, vs, i);
        JoinIs(x, Encode(elem, vs[i]));
        ok := Enc(elem, vs[i]);
        if !ok {
          if EncodeAll(elem, vs).Some? { PrefixEncodes(elem, vs, i + 1); }
          return false;
        }
        x := x + Encode(elem, vs[i]).value;
      }
      assert vs[..|vs|] == vs;
      return true;
    }

    // -------------------------------------------------------------- decoding

    /** `xdrmem_dec_uint32` */
    method DecUint32() returns (r: Option<nat>)
      requires Valid()
      modifies `pos
      ensures Valid() && old(pos) <= pos
      ensures r == (match DecWord(old(In())) case None => None case Some((n, _)) => Some(n))
      ensures pos == old(pos) + if r.Some? then 4 else 0
      ensures r.Some? <==> old(pos) + 4 <= end
      ensures r.Some? ==> r.value == buf[old(pos)] as int * 0x100_0000 + buf[old(pos)+1] as int * 0x1_0000
                                     + buf[old(pos)+2] as int * 0x100 + buf[old(pos)+3] as int
    {
      if pos + 4 > end { return None; }
      var n := FromBe32(buf[pos..pos+4]);
      assert buf[pos..end][0] == buf[pos] && buf[pos..end][1] == buf[pos+1] && buf[pos..end][2] == buf[pos+2] && buf[pos..end][3] == buf[pos+3];
      pos := pos + 4;
      return Some(n);
    }

    /** `xdrmem_dec_bytes` */
    method DecOpaque(cnt: nat) returns (r: Option<seq<byte>>)
      requires Valid() && cnt < W32
      modifies `pos
      ensures Valid() && old(pos) <= pos
      ensures r.Some? <==> DecBytes(old(In()), cnt).Some?
      ensures r.Some? ==> DecBytes(old(In()), cnt) == Some((r.value, pos - old(pos)))
    {
      var size := Roundup(cnt);
      hide Roundup;
      if size < cnt { return None; }
      if end - pos < size { return None; }
      var b := buf[pos..pos+cnt];
      SliceOfSlice(buf[..], pos, end, 0, cnt);
      SliceOfSlice(buf[..], pos, end, cnt, size);
      assert In() == buf[..][pos..end];
      pos := pos + cnt;
      if buf[pos..pos+(size-cnt)] != Zeros(size - cnt) { return None; }
      pos := pos + (size - cnt);
      return Some(b);
    }

    /**
      A client's `xdrproc_t`, decoding into null pointers while `mem` allocations succeed.  It
      succeeds exactly when the specification does and needs no more allocations than that.
     */
    method Dec(t: Type, mem: nat) returns (r: Option<Value>, left: nat)
      requires Valid() && TypeOk(t)
      modifies `pos
      ensures Valid() && Decoded(old(pos), pos, end, DecodeWithin(t, old(In()), mem), r)
      ensures r.Some? ==> left + Needs(t, r.value) == mem
      decreases t, 1
    {
      hide DecodeAll, NeedsAll, FromBe32, DecFixed, DecText, DecWide, Counted, Then, Decoded, In, DecNum;
      left := mem;
      match t {
        case Char => r := DecLimited(0x100);
        case Ushort => r := DecLimited(0x1_0000);
        case Uint => r := DecLimited(0x1_0000_0000);
        case Hyper => r := DecHyper();
        case Opaque(cnt) => r := DecBlock(cnt);
        case String(max) => r, left := DecString(max, mem);
        case Array(max, elsize, elem) => r, left := DecArray(max, elsize, elem, mem);
        case Pair(a, b) => r, left := DecPair(a, b, mem);
      }
    }

    /** One thing after another. */
    method DecPair(a: Type, b: Type, mem: nat) returns (r: Option<Value>, left: nat)
      requires Valid() && TypeOk(Pair(a, b))
      modifies `pos
      ensures Valid() && Decoded(old(pos), pos, end, DecodeWithin(Pair(a, b), old(In()), mem), r)
      ensures r.Some? ==> left + Needs(Pair(a, b), r.value) == mem
      decreases Pair(a, b), 0
    {
      hide *;
      PairOk(a, b);
      InNow();
      ghost var s, p0, d := In(), pos, DecodeWithin(Pair(a, b), In(), mem);
      var x;
      x, left := Dec(a, mem);
      DecodedMeans(p0, pos, end, DecodeWithin(a, s, mem), x);
      if x == None {
        PairFails(a, b, s, mem);
        DecodedMade(p0, pos, end, d, None);
        return None, left;
      }
      ghost var k := pos - p0;
      PairGoesOn(a, b, s, mem, x.value, k);
      InAfter(p0);
      var y;
      y, left := Dec(b, left);
      ghost var e := DecodeWithin(b, s[k..], mem - Needs(a, x.value));
      DecodedMeans(p0 + k, pos, end, e, y);
      ThenIs(x.value, k, e);
      r := if y == None then None else Some(Both(x.value, y.value));
      if y.Some? { PairNeeds(a, b, x.value, y.value); }
      DecodedMade(p0, pos, end, d, r);
    }

    method DecBlock(cnt: nat) returns (r: Option<Value>)
      requires Valid() && cnt < W32
      modifies `pos
      ensures Valid() && Decoded(old(pos), pos, end, Decode(Opaque(cnt), old(In())), r)
    {
      hide DecBytes;
      var b := DecOpaque(cnt);
      r := if b.Some? then Some(Bytes(b.value)) else None;
    }

    /** `xdrmem_dec_char`, `xdrmem_dec_ushort`, `xdrmem_dec_uint` */
    method DecLimited(limit: nat) returns (r: Option<Value>)
      requires Valid()
      modifies `pos
      ensures Valid() && Decoded(old(pos), pos, end, DecNum(old(In()), limit), r)
    {
      var n := DecUint32();
      r := if n.Some? && n.value < limit then Some(Num(n.value)) else None;
    }

    /** `xdrmem_dec_ulonglong` */
    method DecHyper() returns (r: Option<Value>)
      requires Valid()
      modifies `pos
      ensures Valid() && Decoded(old(pos), pos, end, Decode(Hyper, old(In())), r)
    {
      var hi := DecUint32();
      if hi == None { return None; }
      assert In() == old(In())[4..];
      var lo := DecUint32();
      if lo == None { return None; }
      r := Some(Num(hi.value * 0x1_0000_0000 + lo.value));
    }

    /** `xdr_dec_string` into a null pointer: the target is allocated once its size is known. */
    method DecString(max: nat, mem: nat) returns (r: Option<Value>, left: nat)
      requires Valid() && max < W32
      modifies `pos
      ensures Valid() && Decoded(old(pos), pos, end, DecodeWithin(String(max), old(In()), mem), r)
      ensures r.Some? ==> left + 1 == mem
    {
      hide DecBytes;
      left := mem;
      var size := DecUint32();
      if size == None || size.value > max || size.value > UINT_MAX - 1 { return None, left; }
      if left == 0 { return None, left; }
      left := left - 1;
      assert In() == old(In())[4..];
      var b := DecOpaque(size.value);
      if b == None || 0 in b.value { return None, left; }
      r := Some(Bytes(b.value));
    }

    /** `xdr_dec_array` into a null pointer. */
    method DecArray(max: nat, elsize: nat, elem: Type, mem: nat) returns (r: Option<Value>, left: nat)
      requires Valid() && TypeOk(Array(max, elsize, elem))
      modifies `pos
      ensures Valid() && Decoded(old(pos), pos, end, DecodeWithin(Array(max, elsize, elem), old(In()), mem), r)
      ensures r.Some? ==> left + Needs(Array(max, elsize, elem), r.value) == mem
      ensures mem == 0 ==> r == None
      decreases elem, 4
    {
      hide Decode, FromBe32, DecodeAll, In, Decoded, DecodeWithin, Needs;
      ghost var d := DecodeWithin(Array(max, elsize, elem), In(), mem);
      ArrayWithin(max, elsize, elem, In(), mem);
      left := mem;
      var size := DecCount();
      if size == None || size.value > max || size.value > UINT_MAX / elsize || left == 0 {
        DecodedMade(old(pos), pos, end, d, None);
        return None, left;
      }
      var vs;
      vs, left := DecItems(elem, size.value, mem - 1);
      r := if vs.Some? then Some(Items(vs.value)) else None;
      if vs.Some? { ArrayNeeds(max, elsize, elem, vs.value); }
      DecodedMade(old(pos), pos, end, d, r);
    }

    /** The count in front of an array. */
    method DecCount() returns (r: Option<nat>)
      requires Valid()
      modifies `pos
      ensures Valid() && pos == old(pos) + if r.Some? then 4 else 0
      ensures r == if |old(In())| < 4 then None else Some(FromBe32(old(In())))
      ensures r.Some? ==> In() == old(In())[4..]
    {
      hide FromBe32;
      r := DecUint32();
    }

    /** The loop of `xdr_dec_array`. */
    method DecItems(elem: Type, size: nat, mem: nat) returns (r: Option<seq<Value>>, left: nat)
      requires Valid() && TypeOk(elem)
      modifies `pos
      ensures Valid() && old(pos) <= pos && (r.Some? <==> ItemsWithin(elem, old(In()), size, mem))
      ensures r.Some? ==> DecodeAll(elem, old(In()), size) == Some((r.value, pos - old(pos)))
      ensures r.Some? ==> left + NeedsAll(elem, r.value) == mem
      decreases elem, 3
    {
      hide *;
      ghost var s, p0 := In(), pos;
      InNow();
      NoItems(elem, s);
      NoNeeds(elem);
      var vs: seq<Value> := [];
      left := mem;
      for i := 0 to size
        invariant Valid() && p0 <= pos && pos <= end <= buf.Length && s == buf[p0..end]
        invariant |vs| == i && DecodeAll(elem, s, i) == Some((vs, pos - p0)) && left + NeedsAll(elem, vs) == mem
      {
        var v;
        v, left := DecItem(elem, vs, left, s, p0, mem);
        if v == None {
          ItemsFail(elem, s, i + 1, size, mem);
          return None, left;
        }
        vs := vs + [v.value];
      }
      ItemsDone(elem, s, vs, pos - p0, mem);
      return Some(vs), left;
    }

    /** One round of that loop, on a stream that was `s` at `p0`. */
    method DecItem(elem: Type, vs: seq<Value>, have: nat, ghost s: seq<byte>, ghost p0: nat, ghost mem: nat)
      returns (v: Option<Value>, left: nat)
      requires Valid() && TypeOk(elem) && p0 <= pos && s == buf[p0..end]
      requires DecodeAll(elem, s, |vs|) == Some((vs, pos - p0)) && have + NeedsAll(elem, vs) == mem
      modifies `pos
      ensures Valid() && old(pos) <= pos && pos <= end <= buf.Length && s == buf[p0..end]
      ensures v == None ==> !ItemsWithin(elem, s, |vs| + 1, mem)
      ensures v.Some? ==> DecodeAll(elem, s, |vs| + 1) == Some((vs + [v.value], pos - p0))
      ensures v.Some? ==> left + NeedsAll(elem, vs + [v.value]) == mem
      decreases elem, 2
    {
      hide Decode, DecodeAll, TypeOk, Decoded, DecodeWithin, Needs, NeedsAll, ItemsWithin;
      InAfter(p0);
      ghost var k := pos - p0;
      v, left := Dec(elem, have);
      DecodedMeans(p0 + k, pos, end, DecodeWithin(elem, s[k..], have), v);
      if v == None {
        ItemFailed(elem, s, vs, k, mem, have);
      } else {
        WithinMeans(elem, s[k..], have, v.value, pos - p0 - k);
        DecodeMore(elem, s, vs, k, v.value, pos - p0 - k);
        NeedsNext(elem, vs, v.value);
      }
    }

    lemma InNow()
      requires Valid()
      ensures pos <= end && end <= buf.Length && In() == buf[pos..end]
    {}

    lemma InAfter(p0: nat)
      requires Valid() && p0 <= pos
      ensures |buf[p0..end]| == end - p0 && In() == buf[p0..end][pos - p0..]
    {}
  }

  datatype Op = EncodeOp | DecodeOp | FreeOp

  /** `xdrmem_create` over a buffer at address `addr`; the caller is told of failure by a null stream. */
  method Create(buf: array<byte>, addr: nat, size: nat, op: Op) returns (r: XdrMem?)
    requires addr < 0x1_0000_0000_0000_0000 && size < W32 && size <= buf.Length
    ensures r == null <==> op == FreeOp || addr + size >= 0x1_0000_0000_0000_0000
    ensures r != null ==> fresh(r) && r.Valid() && r.buf == buf && r.end == size && r.pos == 0
  {
    if op == FreeOp { return null; }
    var last := (addr + size) % 0x1_0000_0000_0000_0000;
    if last < addr { return null; }
    r := new XdrMem(buf, size);
  }
}
