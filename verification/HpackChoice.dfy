/** What the encoder writes for a field, told by the tables before it: as one index if the field is known, and
    otherwise as a literal that refers to a known name (section 6 and section 7.1.3 of RFC 7541). */
module HpackChoice {
  import opened Wrappers
  import opened Bits
  import opened IntegerCodec
  import opened HeaderTable
  import opened HeaderIndex
  import opened Hpack
  import opened HpackLockstep
  import opened HpackStatic
  import StaticNames

  // ----- The least index

  lemma {:induction false} ScanLeast(statics: seq<Field>, f: Field, i: nat)
    requires 1 <= i
    ensures var k := Scan(statics, f, i); k > 0 ==> i <= k <= |statics| && forall j :: i - 1 <= j < k - 1 ==> statics[j] != f
    decreases |statics| + 1 - i
  {
    if i <= |statics| && statics[i - 1].name == f.name && statics[i - 1].value != f.value {
      ScanLeast(statics, f, i + 1);
    }
  }

  /** The static lookup gives the first entry equal to the field, or else the first with its name. */
  lemma {:induction false} StaticLeast(statics: seq<Field>, f: Field)
    requires Grouped(statics)
    ensures var r := StaticFind(statics, f);
      && r.idx <= |statics|
      && (r.matched ==> forall k :: 0 <= k < r.idx - 1 ==> statics[k] != f)
      && (!r.matched ==> forall k :: 0 <= k < |statics| ==> statics[k] != f)
      && (!r.matched ==> forall k :: 0 <= k < r.idx - 1 ==> statics[k].name != f.name)
  {
    var r, i := StaticFind(statics, f), FirstName(statics, f.name);
    StaticFindSound(statics, f);
    if i > 0 {
      ScanLeast(statics, f, i);
      forall k | 0 <= k < |statics| && !r.matched ensures statics[k] != f {
        if statics[k] == f { ScanComplete(statics, f, i, k + 1); }
      }
    }
  }

  /** A match is the first entry that is the field, and an index for the name is that of the first entry with
      the name. */
  lemma {:induction false} FindLeast(statics: seq<Field>, t: Table, f: Field)
    requires Grouped(statics)
    ensures var r, a := Find(statics, t, f), AddressSpace(statics, t);
      && r.idx <= |a|
      && (r.matched <==> f in a)
      && (r.matched ==> r.idx > 0 && a[r.idx - 1] == f && forall k :: 0 <= k < r.idx - 1 ==> a[k] != f)
      && (!r.matched && r.idx > 0 ==> a[r.idx - 1].name == f.name && forall k :: 0 <= k < r.idx - 1 ==> a[k].name != f.name)
      && (r.idx == 0 ==> forall k :: 0 <= k < |a| ==> a[k].name != f.name)
  {
    FindSound(statics, t, f);
    var r, a := Find(statics, t, f), AddressSpace(statics, t);
    if f in a {
      var k :| 0 <= k < |a| && a[k] == f;
      FindComplete(statics, t, f, k);
    }
    LeastBefore(statics, t, f);
  }

  lemma {:induction false} LeastBefore(statics: seq<Field>, t: Table, f: Field)
    requires Grouped(statics)
    ensures var r, a := Find(statics, t, f), AddressSpace(statics, t);
      && (r.matched ==> forall k :: 0 <= k < r.idx - 1 && k < |a| ==> a[k] != f)
      && (!r.matched ==> forall k :: 0 <= k < r.idx - 1 && k < |a| ==> a[k].name != f.name)
  {
    var r, a, n := Find(statics, t, f), AddressSpace(statics, t), Newest(t.entries);
    StaticLeast(statics, f);
    StaticFindSound(statics, f);
    forall k | 0 <= k < r.idx - 1 && k < |a|
      ensures r.matched ==> a[k] != f
      ensures !r.matched ==> a[k].name != f.name
    {
      if k < |statics| {
        assert a[k] == statics[k];
      } else {
        assert a[k] == n[k - |statics|];
      }
    }
  }

  // ----- One field

  /** The field is small enough for the table. */
  predicate Fits(e: Encoder, hf: HeaderField) {
    e.table.maxSize > 0 && SizeOf(Plain(hf)) <= e.table.maxSize
  }

  /** The bytes after the pending updates are one index: that of the first entry equal to the field. */
  ghost predicate WrittenAsIndex(a: seq<Field>, updates: seq<Byte>, f: Field, bytes: seq<Byte>) {
    exists k :: 0 <= k < |a| && a[k] == f && (forall j :: 0 <= j < k ==> a[j] != f) && bytes == updates + EncInteger(0x80, 7, k + 1)
  }

  /** A field that fits and is not sensitive is written as one index, counts nothing and leaves the table
      alone, if it stands in the tables; if not it counts at least its value, and becomes the newest
      entry if indexing is on. */
  lemma {:induction false} KnownFieldIndexed(cb: Codebook, e: Encoder, hf: HeaderField)
    requires Exact(e.table) && Encodable(hf) && Grouped(cb.statics) && !hf.sensitive && Fits(e, hf)
    ensures var a, f, (e', bytes, n) := AddressSpace(cb.statics, e.table), Plain(hf), EncField(cb, e, hf);
      && (f in a <==> n == 0)
      && (f in a ==> WrittenAsIndex(a, EncUpdates(e), f, bytes) && e'.table == e.table)
      && (f !in a && e.indexing ==>
            e'.table.entries != [] && e'.table.entries[|e'.table.entries| - 1] == f
            && e'.table.entries == Evict(e.table.entries + [f], e.table.maxSize))
      && (!e.indexing ==> e'.table == e.table)
  {
    FindLeast(cb.statics, e.table, Plain(hf));
    AddExact(e.table, Plain(hf));
    NewestStays(e.table.entries, Plain(hf), e.table.maxSize);
  }

  lemma {:induction false} NewestStays(s: seq<Field>, f: Field, max: nat)
    requires SizeOf(f) <= max
    ensures var r := Evict(s + [f], max); r != [] && r[|r| - 1] == f
    decreases |s|
  {
    var all := s + [f];
    assert all[..|all| - 1] == s && all[|all| - 1] == f;
    assert Total(all) == Total(s) + SizeOf(f);
    if s != [] && Total(all) > max {
      assert all[1..] == s[1..] + [f];
      NewestStays(s[1..], f, max);
    }
  }

  /** With indexing on, the table is unchanged if and only if the field stands in the tables. */
  lemma {:induction false} AddedIff(cb: Codebook, e: Encoder, hf: HeaderField)
    requires Exact(e.table) && Encodable(hf) && Grouped(cb.statics) && !hf.sensitive && Fits(e, hf) && e.indexing
    ensures EncField(cb, e, hf).0.table == e.table <==> Plain(hf) in AddressSpace(cb.statics, e.table)
  {
    KnownFieldIndexed(cb, e, hf);
    var s := e.table.entries;
    if s != [] && s[|s| - 1] == Plain(hf) {
      assert Newest(s)[0] == Plain(hf);
      assert AddressSpace(cb.statics, e.table)[|cb.statics|] == Plain(hf);
    }
  }

  /** What an absent field counts: its value, and its name unless the name is known, and 32. */
  lemma {:induction false} AbsentFieldCounts(cb: Codebook, e: Encoder, hf: HeaderField)
    requires Exact(e.table) && Encodable(hf) && Grouped(cb.statics) && !hf.sensitive && Fits(e, hf)
    requires Plain(hf) !in AddressSpace(cb.statics, e.table)
    ensures var a := AddressSpace(cb.statics, e.table);
      EncField(cb, e, hf).2 == 32 + |hf.value| + if exists k :: 0 <= k < |a| && a[k].name == hf.name then 0 else |hf.name|
  {
    FindLeast(cb.statics, e.table, Plain(hf));
  }

  /** Its bytes: the pattern of the literal with the index of the first entry with the name, or with index 0
      and the name, and then the value. */
  lemma {:induction false} AbsentFieldBytes(cb: Codebook, e: Encoder, hf: HeaderField)
    requires Exact(e.table) && Encodable(hf) && Grouped(cb.statics) && !hf.sensitive && Fits(e, hf)
    requires Plain(hf) !in AddressSpace(cb.statics, e.table)
    ensures var a, bytes := AddressSpace(cb.statics, e.table), EncField(cb, e, hf).1;
      var mask: Byte, n := if e.indexing then 0x40 else 0, if e.indexing then 6 else 4;
      var value := EncString(cb, hf.value, e.huffman);
      && ((forall k :: 0 <= k < |a| ==> a[k].name != hf.name) ==>
            bytes == EncUpdates(e) + (EncInteger(mask, n, 0) + EncString(cb, hf.name, e.huffman) + value))
      && forall k :: 0 <= k < |a| && a[k].name == hf.name && (forall j :: 0 <= j < k ==> a[j].name != hf.name) ==>
            bytes == EncUpdates(e) + (EncInteger(mask, n, k + 1) + [] + value)
  {
    FindLeast(cb.statics, e.table, Plain(hf));
  }

  /** Sensitive fields and fields too large for the table are written as literals with their name, counted in
      full, and never change the table; sensitive ones are marked as never to be indexed. */
  lemma {:induction false} NeverAdded(cb: Codebook, e: Encoder, hf: HeaderField)
    requires Exact(e.table) && Encodable(hf) && (hf.sensitive || (e.table.maxSize > 0 && !Fits(e, hf)))
    ensures var (e', bytes, n) := EncField(cb, e, hf);
      var first: Byte := if hf.sensitive then 0x10 else 0;
      && e'.table == e.table && n == 32 + |hf.name| + |hf.value|
      && bytes == EncUpdates(e) + ([first] + EncString(cb, hf.name, e.huffman) + EncString(cb, hf.value, e.huffman))
  {
    var first: Byte := if hf.sensitive then 0x10 else 0;
    assert EncInteger(first, 4, 0) == [first];
  }

  /** With an empty table only the static table decides: a field in it is written as one index. */
  lemma {:induction false} StaticOnly(cb: Codebook, e: Encoder, hf: HeaderField)
    requires Exact(e.table) && Encodable(hf) && Grouped(cb.statics) && !hf.sensitive && e.table.maxSize == 0
    ensures var f, (e', bytes, n) := Plain(hf), EncField(cb, e, hf);
      && e'.table == e.table
      && (f in cb.statics <==> n == 0)
      && (f in cb.statics ==> WrittenAsIndex(cb.statics, EncUpdates(e), f, bytes))
  {
    var none := Table([], 0, 0);
    var f := Plain(hf);
    FindLeast(cb.statics, none, f);
    assert AddressSpace(cb.statics, none) == cb.statics;
    assert Find(cb.statics, none, f).matched ==> Find(cb.statics, none, f) == StaticFind(cb.statics, f);
  }

  /** What was added is known from then on: the same field again is one index. */
  lemma {:induction false} SecondTimeIndexed(cb: Codebook, e: Encoder, hf: HeaderField)
    requires Exact(e.table) && Encodable(hf) && Grouped(cb.statics) && !hf.sensitive && Fits(e, hf) && e.indexing
    ensures var e1 := EncField(cb, e, hf).0;
      e1.table.size < TWO32 && EncField(cb, e1, hf).2 == 0 && EncField(cb, e1, hf).0.table == e1.table
  {
    KnownFieldIndexed(cb, e, hf);
    AddExact(e.table, Plain(hf));
    var e1 := EncField(cb, e, hf).0;
    if Plain(hf) !in AddressSpace(cb.statics, e.table) {
      assert Newest(e1.table.entries)[0] == Plain(hf);
      assert AddressSpace(cb.statics, e1.table)[|cb.statics|] == Plain(hf);
    }
    KnownFieldIndexed(cb, e1, hf);
  }

  /** The first field of many requests, :method: GET, is one byte with the tables of the source. */
  lemma {:induction false} MethodGet(e: Encoder)
    requires Exact(e.table) && 64 <= e.table.maxSize && !e.sizeChanged
    ensures var get := HeaderField(Bytes(":method"), Bytes("GET"), false);
      EncField(StandardBook(), e, get).1 == [0x82] && EncField(StandardBook(), e, get).2 == 0
  {
    var get, cb := HeaderField(Bytes(":method"), Bytes("GET"), false), StandardBook();
    var s, a := StaticTable(), AddressSpace(cb.statics, e.table);
    StaticNames.StaticTableGrouped();
    assert s[1] == Plain(get) && |s[0].name| == 10 && |get.name| == 7;
    assert a[0] == s[0] && a[1] == s[1];
    KnownFieldIndexed(cb, e, get);
    assert EncInteger(0x80, 7, 2) == [0x82];
  }

  // ----- Strings

  lemma {:induction false} LongerInteger(mask: Byte, i: nat, j: nat)
    requires ValidPrefix(mask, 7) && i <= j
    ensures |EncInteger(mask, 7, i)| <= |EncInteger(mask, 7, j)|
  {
    if i >= Bound(7) { LongerContinuation(i - Bound(7), j - Bound(7)); }
  }

  lemma {:induction false} LongerContinuation(i: nat, j: nat)
    requires i <= j
    ensures |EncContinuation(i)| <= |EncContinuation(j)|
    decreases i
  {
    if i >= 128 { LongerContinuation(i / 128, j / 128); }
  }

  /** A string is written in the shorter of its two forms, the plain one if they are alike. */
  lemma {:induction false} ShorterString(cb: Codebook, s: Str)
    ensures var r, plain, huff := EncString(cb, s, HuffAuto), EncInteger(0, 7, |s|) + s,
              EncInteger(0x80, 7, |cb.huffEncode(s)|) + cb.huffEncode(s);
      && (r == plain || r == huff) && |r| <= |plain| && |r| <= |huff|
      && (r == huff && r != plain ==> |cb.huffEncode(s)| < |s|)
      && (|cb.huffEncode(s)| < |s| ==> r == huff)
  {
    var e := cb.huffEncode(s);
    SameLength(if |e| < |s| then |e| else |s|);
    if |e| < |s| {
      LongerInteger(0x80, |e|, |s|);
      SameLength(|s|);
    } else {
      LongerInteger(0, |s|, |e|);
      SameLength(|e|);
    }
  }

  lemma {:induction false} SameLength(i: nat)
    ensures |EncInteger(0, 7, i)| == |EncInteger(0x80, 7, i)|
  {
  }
}
