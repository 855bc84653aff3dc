/** Lookup in the combined static and dynamic index space (section 2.3.3 of RFC 7541). */
module HeaderIndex {
  import opened Wrappers
  import opened Bits
  import opened HeaderTable

  /** The dynamic entries in index order: newest first. */
  function Newest(s: seq<Field>): (r: seq<Field>)
    ensures |r| == |s|
    ensures forall k :: 0 <= k < |s| ==> r[k] == s[|s| - 1 - k]
  {
    seq(|s|, k requires 0 <= k < |s| => s[|s| - 1 - k])
  }

  function AddressSpace(statics: seq<Field>, t: Table): (a: seq<Field>) {
    statics + Newest(t.entries)
  }

  function Entry(statics: seq<Field>, t: Table, i: nat): (e: Option<Field>) {
    var a := AddressSpace(statics, t);
    if 1 <= i <= |a| then Some(a[i - 1]) else None
  }

  /** 1-based position of the first entry with the name, 0 if there is none. */
  function FirstName(s: seq<Field>, name: Str): (i: nat)
    ensures i <= |s| && (i > 0 ==> s[i - 1].name == name)
    ensures forall k :: 0 <= k < (if i == 0 then |s| else i - 1) ==> s[k].name != name
  {
    if s == [] then 0
    else if s[0].name == name then 1
    else
      var r := FirstName(s[1..], name);
      assert forall k :: 1 <= k < |s| ==> s[k] == s[1..][k - 1];
      if r == 0 then 0 else r + 1
  }

  function FirstExact(s: seq<Field>, f: Field): (i: nat)
    ensures i <= |s| && (i > 0 ==> s[i - 1] == f)
    ensures forall k :: 0 <= k < (if i == 0 then |s| else i - 1) ==> s[k] != f
  {
    if s == [] then 0
    else if s[0] == f then 1
    else
      var r := FirstExact(s[1..], f);
      assert forall k :: 1 <= k < |s| ==> s[k] == s[1..][k - 1];
      if r == 0 then 0 else r + 1
  }

  datatype Found = Found(idx: nat, matched: bool)

  /** From the first entry with the name on, as long as the name stays the same. */
  function Scan(statics: seq<Field>, f: Field, i: nat): (r: nat)
    requires 1 <= i
    decreases |statics| + 1 - i
  {
    if i > |statics| || statics[i - 1].name != f.name then 0
    else if statics[i - 1].value == f.value then i
    else Scan(statics, f, i + 1)
  }

  function StaticFind(statics: seq<Field>, f: Field): (r: Found) {
    var i := FirstName(statics, f.name);
    if i == 0 then Found(0, false)
    else
      var k := Scan(statics, f, i);
      if k > 0 then Found(k, true) else Found(i, false)
  }

  function DynamicFind(entries: seq<Field>, f: Field): (r: Found) {
    var a := Newest(entries);
    var k := FirstExact(a, f);
    if k > 0 then Found(k, true) else Found(FirstName(a, f.name), false)
  }

  function Find(statics: seq<Field>, t: Table, f: Field): (r: Found) {
    var s := StaticFind(statics, f);
    if s.matched then s
    else
      var d := DynamicFind(t.entries, f);
      if d.matched || (s.idx == 0 && d.idx != 0) then Found(d.idx + |statics|, d.matched) else Found(s.idx, d.matched)
  }

  lemma {:induction false} ScanSound(statics: seq<Field>, f: Field, i: nat)
    requires 1 <= i
    ensures var k := Scan(statics, f, i); k <= |statics| && (k > 0 ==> statics[k - 1] == f)
    decreases |statics| + 1 - i
  {
    if i <= |statics| && statics[i - 1].name == f.name && statics[i - 1].value != f.value {
      ScanSound(statics, f, i + 1);
    }
  }

  /** Entries with the same name stand together, as they do in the static table. */
  predicate Grouped(s: seq<Field>) {
    forall i, j, k :: 0 <= i < j < k < |s| && s[i].name == s[k].name ==> s[j].name == s[k].name
  }

  lemma {:induction false} ScanComplete(statics: seq<Field>, f: Field, i: nat, k: nat)
    requires Grouped(statics) && 1 <= i <= k <= |statics|
    requires statics[i - 1].name == f.name && statics[k - 1] == f
    ensures Scan(statics, f, i) > 0
    decreases k - i
  {
    if statics[i - 1].value != f.value {
      ScanComplete(statics, f, i + 1, k);
    }
  }

  /** A match is an entry equal to the field; otherwise the index, if any, has the field's name,
      and no index means that the name occurs nowhere. */
  lemma {:induction false} FindSound(statics: seq<Field>, t: Table, f: Field)
    ensures var r := Find(statics, t, f);
      var a := AddressSpace(statics, t);
      && r.idx <= |a| && (r.matched ==> r.idx > 0)
      && (r.idx > 0 ==> a[r.idx - 1].name == f.name)
      && (r.matched ==> a[r.idx - 1] == f)
      && (r.idx == 0 ==> forall k :: 0 <= k < |a| ==> a[k].name != f.name)
  {
    StaticFindSound(statics, f);
    var r, n := Find(statics, t, f), Newest(t.entries);
    var a := statics + n;
    if r.idx > |statics| {
      assert a[r.idx - 1] == n[r.idx - |statics| - 1];
    }
    if r.idx == 0 {
      forall k | 0 <= k < |a| ensures a[k].name != f.name {
        if k >= |statics| { assert a[k] == n[k - |statics|]; }
      }
    }
  }

  lemma {:induction false} StaticFindSound(statics: seq<Field>, f: Field)
    ensures var r := StaticFind(statics, f);
      && r.idx <= |statics| && (r.matched ==> r.idx > 0)
      && (r.idx > 0 ==> statics[r.idx - 1].name == f.name)
      && (r.matched ==> statics[r.idx - 1] == f)
      && (r.idx == 0 ==> forall k :: 0 <= k < |statics| ==> statics[k].name != f.name)
  {
    var i := FirstName(statics, f.name);
    if i > 0 { ScanSound(statics, f, i); }
  }

  /** With a grouped static table, a field that is in the tables is found. */
  lemma {:induction false} FindComplete(statics: seq<Field>, t: Table, f: Field, k: nat)
    requires Grouped(statics)
    requires k < |AddressSpace(statics, t)| && AddressSpace(statics, t)[k] == f
    ensures Find(statics, t, f).matched
  {
    if k < |statics| {
      ScanComplete(statics, f, FirstName(statics, f.name), k + 1);
    } else {
      assert Newest(t.entries)[k - |statics|] == f;
    }
  }

  // ----- The loops

  function BitXor(x: nat, y: nat): (z: nat)
    decreases x + y
  {
    if x == 0 && y == 0 then 0
    else 2 * BitXor(x / 2, y / 2) + (if x % 2 != y % 2 then 1 else 0)
  }

  lemma {:induction false} XorZero(x: nat, y: nat)
    ensures BitXor(x, y) == 0 <==> x == y
    decreases x + y
  {
    if x != 0 || y != 0 { XorZero(x / 2, y / 2); }
  }

  lemma {:induction false} OrZero(x: nat, y: nat)
    ensures BitOr(x, y) == 0 <==> x == 0 && y == 0
    decreases x + y
  {
    if x != 0 || y != 0 { OrZero(x / 2, y / 2); }
  }

  /** Compares without an early exit. */
  method Strcmp(a: Str, b: Str) returns (same: bool)
    ensures same == (a == b)
  {
    if |a| != |b| {
      return false;
    }
    var c: nat := 0;
    for i := 0 to |a|
      invariant c == 0 <==> a[..i] == b[..i]
    {
      XorZero(a[i], b[i]);
      OrZero(c, BitXor(a[i], b[i]));
      assert a[..i + 1] == a[..i] + [a[i]] && b[..i + 1] == b[..i] + [b[i]];
      c := BitOr(c, BitXor(a[i], b[i]));
    }
    assert a[..|a|] == a && b[..|b|] == b;
    return c == 0;
  }

  /** The map from names to static positions, filled from the end so that the first position stays. */
  method BuildStaticMap(statics: seq<Field>) returns (m: map<Str, nat>)
    ensures forall name :: FirstName(statics, name) == if name in m then m[name] else 0
    ensures forall name :: name in m ==> m[name] > 0
  {
    m := map[];
    var i: nat := |statics|;
    while i > 0
      invariant i <= |statics|
      invariant forall name :: name in m ==> m[name] > i
      invariant forall name :: FirstName(statics[i..], name) == if name in m then m[name] - i else 0
    {
      var x := statics[i - 1];
      assert statics[i - 1..] == [x] + statics[i..] && statics[i - 1..][1..] == statics[i..];
      m := m[x.name := i];
      i := i - 1;
    }
    assert statics[0..] == statics;
  }

  method StaticIndex(statics: seq<Field>, staticMap: map<Str, nat>, f: Field) returns (r: Found)
    requires forall name :: FirstName(statics, name) == if name in staticMap then staticMap[name] else 0
    requires forall name :: name in staticMap ==> staticMap[name] > 0
    ensures r == StaticFind(statics, f)
  {
    r := Found(0, false);
    if f.name in staticMap {
      var i := staticMap[f.name];
      ghost var goal := Scan(statics, f, i);
      r := Found(i, false);
      while i <= |statics|
        invariant 1 <= i && Scan(statics, f, i) == goal
        invariant r == Found(staticMap[f.name], false)
      {
        var x := statics[i - 1];
        var matched := Strcmp(f.name, x.name);
        if !matched {
          break;
        }
        matched := Strcmp(f.value, x.value);
        if matched {
          r := Found(i, true);
          return;
        }
        i := i + 1;
      }
    }
  }

  method DynamicIndex(entries: seq<Field>, f: Field) returns (r: Found)
    ensures r == DynamicFind(entries, f)
  {
    var l := |entries|;
    var idx: nat := 0;
    ghost var a := Newest(entries);
    var i := l - 1;
    while i >= 0
      invariant -1 <= i < l
      invariant idx <= l - 1 - i
      invariant forall k :: 0 <= k < l - 1 - i ==> a[k] != f
      invariant idx == 0 ==> forall k :: 0 <= k < l - 1 - i ==> a[k].name != f.name
      invariant idx > 0 ==> a[idx - 1].name == f.name && forall k :: 0 <= k < idx - 1 ==> a[k].name != f.name
    {
      var x := entries[i];
      var matched := Strcmp(f.name, x.name);
      if matched {
        if idx == 0 {
          idx := l - i;
        }
        matched := Strcmp(f.value, x.value);
        if matched {
          assert a[l - 1 - i] == x == f;
          assert FirstExact(a, f) == l - i;
          return Found(l - i, true);
        }
      }
      i := i - 1;
    }
    return Found(idx, false);
  }

  method FindField(statics: seq<Field>, staticMap: map<Str, nat>, t: Table, f: Field) returns (r: Found)
    requires forall name :: FirstName(statics, name) == if name in staticMap then staticMap[name] else 0
    requires forall name :: name in staticMap ==> staticMap[name] > 0
    ensures r == Find(statics, t, f)
  {
    r := StaticIndex(statics, staticMap, f);
    if r.matched {
      return;
    }
    var d := DynamicIndex(t.entries, f);
    if d.matched || (r.idx == 0 && d.idx != 0) {
      r := Found(d.idx + |statics|, d.matched);
    } else {
      r := Found(r.idx, d.matched);
    }
  }
}
