/** The HPACK dynamic table (sections 2.3 and 4 of RFC 7541): what it holds, the class that keeps it
    in a buffer with in-place compaction, and the combined lookup with the static table. */
module HeaderTable {
  import opened Wrappers
  import opened Bits

  type Str = seq<Byte>

  datatype Field = Field(name: Str, value: Str)

  const OVERHEAD: nat := 32

  function SizeOf(f: Field): (n: nat) {
    |f.name| + |f.value| + OVERHEAD
  }

  /** The size as the uint32 the source computes. */
  function HeaderFieldSize(f: Field): (n: nat)
    ensures n < TWO32
  {
    if SizeOf(f) < TWO32 then SizeOf(f) else SizeOf(f) % TWO32
  }

  function Total(s: seq<Field>): (n: nat) {
    if s == [] then 0 else Total(s[..|s| - 1]) + SizeOf(s[|s| - 1])
  }

  /** The newest entries that fit: drop the oldest until the rest is small enough. */
  function Evict(s: seq<Field>, max: nat): (r: seq<Field>) {
    if Total(s) <= max || s == [] then s else Evict(s[1..], max)
  }

  /** Uint32 subtraction. */
  function Minus32(a: nat, b: nat): (c: nat)
    requires a < TWO32 && b < TWO32
    ensures c < TWO32
  {
    if a >= b then a - b else a + TWO32 - b
  }

  function Plus32(a: nat, b: nat): (c: nat)
    requires a < TWO32 && b < TWO32
    ensures c < TWO32
  {
    if a + b < TWO32 then a + b else a + b - TWO32
  }

  /** Entries oldest first, with the running size in uint32. */
  datatype Table = Table(entries: seq<Field>, size: nat, maxSize: nat)

  function Sum32(s: seq<Field>): (n: nat)
    ensures n < TWO32
  {
    if s == [] then 0 else Plus32(HeaderFieldSize(s[0]), Sum32(s[1..]))
  }

  /** The eviction loop on the running uint32 size. */
  function EvictLoop(s: seq<Field>, size: nat, max: nat): (r: (seq<Field>, nat))
    requires size < TWO32
  {
    if size <= max || s == [] then (s, size)
    else EvictLoop(s[1..], Minus32(size, HeaderFieldSize(s[0])), max)
  }

  function SetMax(t: Table, max: nat): (r: Table)
    requires t.size < TWO32
  {
    if max == t.maxSize then t
    else if max == 0 then Table([], 0, 0)
    else
      var (s, n) := EvictLoop(t.entries, t.size, max);
      Table(s, n, max)
  }

  function Add(t: Table, f: Field): (r: Table)
    requires t.size < TWO32
  {
    var hsize := HeaderFieldSize(f);
    if hsize > t.maxSize then Table([], 0, t.maxSize)
    else
      var (s, n) := EvictLoop(t.entries + [f], Plus32(t.size, hsize), t.maxSize);
      Table(s, n, t.maxSize)
  }

  // ----- Without wrap-around

  /** Table sizes below 2^31: the running size is the true one. */
  predicate Exact(t: Table) {
    t.maxSize < TWO31 && t.size == Total(t.entries) <= t.maxSize
  }

  lemma {:induction false} TotalFront(s: seq<Field>)
    requires s != []
    ensures Total(s) == SizeOf(s[0]) + Total(s[1..])
  {
    if |s| > 1 {
      var front := s[..|s| - 1];
      TotalFront(front);
      assert s[1..][..|s| - 2] == front[1..];
    }
  }

  lemma {:induction false} EvictLoopExact(s: seq<Field>, max: nat)
    requires Total(s) < TWO32
    ensures EvictLoop(s, Total(s), max) == (Evict(s, max), Total(Evict(s, max)))
  {
    if s != [] {
      TotalFront(s);
      if Total(s) > max { EvictLoopExact(s[1..], max); }
    }
  }

  lemma {:induction false} EvictFits(s: seq<Field>, max: nat)
    ensures Total(Evict(s, max)) <= max
  {
    if s != [] && Total(s) > max { EvictFits(s[1..], max); }
  }

  /** The entries kept are a suffix, and no longer suffix fits. */
  lemma {:induction false} EvictKeepsNewest(s: seq<Field>, max: nat)
    ensures var r := Evict(s, max);
      |r| <= |s| && r == s[|s| - |r|..]
    ensures var r := Evict(s, max);
      forall k :: 0 <= k < |s| - |r| ==> Total(s[k..]) > max
  {
    if s != [] && Total(s) > max {
      EvictKeepsNewest(s[1..], max);
      var r := Evict(s[1..], max);
      assert s[1..][|s| - 1 - |r|..] == s[|s| - |r|..];
      forall k | 0 <= k < |s| - |r| ensures Total(s[k..]) > max {
        if k > 0 { assert s[1..][k - 1..] == s[k..]; } else { assert s[0..] == s; }
      }
    }
  }

  /** Two evictions in a row are one, to the smaller limit. */
  lemma {:induction false} EvictTwice(s: seq<Field>, a: nat, b: nat)
    ensures Evict(Evict(s, a), b) == Evict(s, if a < b then a else b)
  {
    if s == [] {
    } else if Total(s) > a {
      EvictTwice(s[1..], a, b);
    } else if Total(s) > b {
      EvictLimit(s, a, b);
    }
  }

  lemma {:induction false} EvictLimit(s: seq<Field>, a: nat, b: nat)
    requires Total(s) <= a && b < Total(s)
    ensures Evict(s, a) == s && b < a
  {
  }

  /** For sizes below 2^31, SetMax is eviction to the new limit and Add is eviction after appending,
      or clearing for an entry that does not fit at all. */
  lemma {:induction false} TableExact(t: Table, max: nat, f: Field)
    requires Exact(t) && max < TWO31 && SizeOf(f) < TWO32
    ensures Exact(SetMax(t, max)) && SetMax(t, max).entries == Evict(t.entries, max) && SetMax(t, max).maxSize == max
    ensures Exact(Add(t, f)) && Add(t, f).maxSize == t.maxSize
    ensures Add(t, f).entries == if SizeOf(f) > t.maxSize then [] else Evict(t.entries + [f], t.maxSize)
  {
    SetMaxExact(t, max);
    AddExact(t, f);
  }

  lemma {:induction false} SetMaxExact(t: Table, max: nat)
    requires Exact(t) && max < TWO31
    ensures Exact(SetMax(t, max)) && SetMax(t, max).entries == Evict(t.entries, max) && SetMax(t, max).maxSize == max
  {
    EvictLoopExact(t.entries, max);
    EvictFits(t.entries, max);
    if max == 0 { EvictToZero(t.entries); }
  }

  lemma {:induction false} AddExact(t: Table, f: Field)
    requires Exact(t) && SizeOf(f) < TWO32
    ensures Exact(Add(t, f)) && Add(t, f).maxSize == t.maxSize
    ensures Add(t, f).entries == if SizeOf(f) > t.maxSize then [] else Evict(t.entries + [f], t.maxSize)
  {
    if SizeOf(f) <= t.maxSize {
      var s := t.entries + [f];
      assert s[..|s| - 1] == t.entries;
      EvictLoopExact(s, t.maxSize);
      EvictFits(s, t.maxSize);
    }
  }

  lemma {:induction false} EvictToZero(s: seq<Field>)
    ensures Evict(s, 0) == []
  {
    if s != [] { EvictToZero(s[1..]); }
  }

  // ----- Sums in uint32

  lemma {:induction false} Sum32Append(s: seq<Field>, f: Field)
    ensures Sum32(s + [f]) == Plus32(Sum32(s), HeaderFieldSize(f))
  {
    if s == [] {
      assert (s + [f])[1..] == [];
    } else {
      Sum32Append(s[1..], f);
      assert (s + [f])[1..] == s[1..] + [f];
    }
  }

  predicate Consistent(t: Table) {
    t.size == Sum32(t.entries)
  }

  // ----- The table object

  class HeaderTableObject {
    var buf: array<Field>
    var len: nat
    var size: nat
    var maxSize: nat

    ghost predicate Valid()
      reads this, buf
    {
      len <= buf.Length && Consistent(View())
    }

    ghost function View(): (t: Table)
      requires len <= buf.Length
      reads this, buf
    {
      Table(buf[..len], size, maxSize)
    }

    constructor (max: nat)
      ensures Valid() && fresh(buf) && View() == Table([], 0, max)
    {
      buf := new Field[0];
      len, size, maxSize := 0, 0, max;
    }

    method SetMaxSize(max: nat) returns (changed: bool)
      requires Valid()
      modifies this`len, this`size, this`maxSize, buf
      ensures Valid() && View() == SetMax(old(View()), max) && changed == (max != old(maxSize))
    {
      if max == maxSize {
        return false;
      }
      maxSize := max;
      if max == 0 {
        len, size := 0, 0;
      } else {
        DropOldest();
      }
      return true;
    }

    method AddEntry(f: Field) returns (added: bool)
      requires Valid()
      modifies this`buf, this`len, this`size, buf
      ensures Valid() && (buf == old(buf) || fresh(buf))
      ensures View() == Add(old(View()), f) && added == (HeaderFieldSize(f) <= maxSize)
    {
      var hsize := HeaderFieldSize(f);
      if hsize > maxSize {
        len, size := 0, 0;
        return false;
      }
      Append(f);
      DropOldest();
      return true;
    }

    method Append(f: Field)
      requires Valid()
      modifies this`buf, this`len, this`size, buf
      ensures Valid() && (buf == old(buf) || fresh(buf)) && maxSize == old(maxSize)
      ensures View() == Table(old(View()).entries + [f], Plus32(old(size), HeaderFieldSize(f)), maxSize)
    {
      Sum32Append(buf[..len], f);
      if len == buf.Length {
        var bigger := new Field[2 * len + 1];
        for i := 0 to len
          modifies bigger
          invariant forall k :: 0 <= k < i ==> bigger[k] == buf[k]
        {
          bigger[i] := buf[i];
        }
        assert bigger[..len] == buf[..len];
        buf := bigger;
      }
      buf[len] := f;
      len := len + 1;
      size := Plus32(size, HeaderFieldSize(f));
      assert buf[..len] == old(buf[..len]) + [f];
    }

    /** The eviction loop, then the in-place compaction of what is left. */
    method DropOldest()
      requires Valid()
      modifies this`len, this`size, buf
      ensures Valid()
      ensures (View().entries, size) == EvictLoop(old(View()).entries, old(size), maxSize)
    {
      ghost var s := buf[..len];
      ghost var goal := EvictLoop(s, size, maxSize);
      var off: nat := 0;
      while size > maxSize
        modifies this`size
        invariant off <= len && size < TWO32 && size == Sum32(s[off..])
        invariant EvictLoop(s[off..], size, maxSize) == goal
        invariant buf[..len] == s
        decreases len - off
      {
        var x := buf[off];
        assert s[off..] != [] && s[off..][0] == x && s[off..][1..] == s[off + 1..];
        size := Minus32(size, HeaderFieldSize(x));
        off := off + 1;
      }
      if off != 0 {
        CopyDown(off);
      }
    }

    method CopyDown(off: nat)
      requires off <= len <= buf.Length
      modifies this`len, buf
      ensures len == old(len) - off && buf[..len] == old(buf[..len])[off..]
    {
      var n := len - off;
      ghost var s := buf[..len];
      for i := 0 to n
        modifies buf
        invariant forall k :: 0 <= k < i ==> buf[k] == s[off + k]
        invariant forall k :: i <= k < len ==> buf[k] == s[k]
      {
        buf[i] := buf[off + i];
      }
      len := n;
    }
  }
}
