/** Table sizes given to the two sides in different ways: the decoder goes through all of them, the encoder
    is told the last one only. */
module HpackResize {
  import opened Wrappers
  import opened HeaderTable
  import opened HeaderIndex
  import opened Hpack
  import opened HpackLockstep

  /** Successive sizes for the decoder. */
  function DecSetAll(d: Decoder, sizes: seq<nat>): (d': Decoder)
    requires d.table.size < TWO32
    ensures d'.table.size < TWO32
    decreases |sizes|
  {
    if sizes == [] then d
    else
      SetMaxSize32(d.table, sizes[0]);
      DecSetAll(DecSetMax(d, sizes[0]), sizes[1..])
  }

  /** The entries that are left: sizes that are not below the limit in force evict nothing. */
  function Dipped(s: seq<Field>, limit: nat, sizes: seq<nat>): (r: seq<Field>)
    decreases |sizes|
  {
    if sizes == [] then s else Dipped(if sizes[0] < limit then Evict(s, sizes[0]) else s, limit, sizes[1..])
  }

  lemma {:induction false} EvictShrinks(s: seq<Field>, max: nat)
    ensures Total(Evict(s, max)) <= Total(s)
  {
    if s != [] && Total(s) > max {
      EvictShrinks(s[1..], max);
      DropsOldest(s);
    }
  }

  lemma {:induction false} DropsOldest(s: seq<Field>)
    requires s != []
    ensures Total(s[1..]) <= Total(s)
  {
    if |s| > 1 {
      var front := s[..|s| - 1];
      DropsOldest(front);
      assert s[1..][..|s| - 2] == front[1..];
    }
  }

  lemma {:induction false} DippedShrinks(s: seq<Field>, limit: nat, sizes: seq<nat>)
    ensures Total(Dipped(s, limit, sizes)) <= Total(s)
    decreases |sizes|
  {
    if sizes != [] {
      EvictShrinks(s, sizes[0]);
      DippedShrinks(if sizes[0] < limit then Evict(s, sizes[0]) else s, limit, sizes[1..]);
    }
  }

  lemma {:induction false} EvictKeepsFitting(s: seq<Field>, max: nat)
    requires Total(s) <= max
    ensures Evict(s, max) == s
  {
  }

  /** A size between leaves the newest entries that fit k alone if and only if they fit it too. */
  lemma {:induction false} EvictBetween(s: seq<Field>, m: nat, k: nat)
    requires Total(Evict(s, k)) <= m
    ensures Evict(Evict(s, m), k) == Evict(s, k)
  {
    EvictTwice(s, m, k);
    if m < k {
      EvictKeepsFitting(Evict(s, k), m);
      EvictTwice(s, k, m);
    }
  }

  /** A size that holds the newest entries that fit k. */
  predicate Roomy(s: seq<Field>, k: nat, limit: nat, sizes: seq<nat>) {
    forall i :: 0 <= i < |sizes| && sizes[i] < limit ==> Total(Evict(s, k)) <= sizes[i]
  }

  lemma {:induction false} DippedIff(s: seq<Field>, limit: nat, sizes: seq<nat>, k: nat)
    ensures Evict(Dipped(s, limit, sizes), k) == Evict(s, k) <==> Roomy(s, k, limit, sizes)
    decreases |sizes|
  {
    if sizes != [] {
      var x, tail := sizes[0], sizes[1..];
      RoomyTail(s, k, limit, sizes);
      if x >= limit {
        DippedIff(s, limit, tail, k);
      } else if Total(Evict(s, k)) <= x {
        EvictBetween(s, x, k);
        DippedIff(Evict(s, x), limit, tail, k);
      } else {
        EvictFits(s, x);
        DippedShrinks(Evict(s, x), limit, tail);
        EvictShrinks(Dipped(Evict(s, x), limit, tail), k);
      }
    }
  }

  lemma {:induction false} RoomyTail(s: seq<Field>, k: nat, limit: nat, sizes: seq<nat>)
    requires sizes != []
    ensures Roomy(s, k, limit, sizes) <==>
      (sizes[0] < limit ==> Total(Evict(s, k)) <= sizes[0]) && Roomy(s, k, limit, sizes[1..])
  {
    var tail := sizes[1..];
    assert forall i :: 0 <= i < |tail| ==> tail[i] == sizes[i + 1];
    if (sizes[0] < limit ==> Total(Evict(s, k)) <= sizes[0]) && Roomy(s, k, limit, tail) {
      forall i | 0 <= i < |sizes| && sizes[i] < limit ensures Total(Evict(s, k)) <= sizes[i] {
        if i > 0 { assert sizes[i] == tail[i - 1]; }
      }
    }
  }

  predicate Small(sizes: seq<nat>) {
    forall i :: 0 <= i < |sizes| ==> sizes[i] < TWO31
  }

  lemma {:induction false} DecSetAllMeaning(d: Decoder, sizes: seq<nat>)
    requires Exact(d.table) && Small(sizes) && d.table.maxSize <= d.maxSizeLimit
    ensures var d' := DecSetAll(d, sizes);
      && Exact(d'.table) && d'.table.entries == Dipped(d.table.entries, d.maxSizeLimit, sizes)
      && d'.table.maxSize <= d'.maxSizeLimit == d.maxSizeLimit
      && (sizes != [] ==> d'.maxSize == sizes[|sizes| - 1])
      && d'.st == d.st && d'.n == d.n && d'.err == d.err && d'.leftover == d.leftover
    decreases |sizes|
  {
    if sizes != [] {
      SetMaxExact(d.table, sizes[0]);
      var tail := sizes[1..];
      assert forall i :: 0 <= i < |tail| ==> tail[i] == sizes[i + 1];
      DecSetAllMeaning(DecSetMax(d, sizes[0]), tail);
    }
  }

  /** If the decoder goes through several sizes and the encoder is told the last, they stay synchronisable
      if and only if each of the sizes holds what the encoder then still has in its table. */
  lemma {:induction false} DipIff(e: Encoder, d: Decoder, sizes: seq<nat>)
    requires Synced(e, d) && sizes != [] && Small(sizes)
    ensures var x := sizes[|sizes| - 1];
      Synced(EncSetMax(e, x), DecSetAll(d, sizes)) <==>
      forall i :: 0 <= i < |sizes| ==> Total(Evict(e.table.entries, x)) <= sizes[i]
  {
    var x := sizes[|sizes| - 1];
    var s, k := d.table.entries, if x < e.minSize then x else e.minSize;
    SetMaxExact(e.table, x);
    DecSetAllMeaning(d, sizes);
    KeptEntries(e, d, x);
    DippedIff(s, d.maxSizeLimit, sizes, k);
    EvictShrinks(s, k);
    assert Total(s) <= d.maxSizeLimit;
  }

  lemma {:induction false} KeptEntries(e: Encoder, d: Decoder, x: nat)
    requires Synced(e, d)
    ensures Evict(e.table.entries, x) == Evict(d.table.entries, if x < e.minSize then x else e.minSize)
  {
    if e.sizeChanged {
      EvictTwice(d.table.entries, e.minSize, x);
    } else if e.minSize <= x {
      EvictKeepsFitting(e.table.entries, x);
      EvictKeepsFitting(e.table.entries, e.minSize);
    }
  }
}
