/** Headers as maps from keys to value lists: the writer visits the keys in an arbitrary order, the
    reader adds field by field. */
module HeaderMap {
  import opened Bits
  import opened HeaderTable
  import opened Hpack
  import opened HpackLockstep
  import opened HB = HeaderBlocks

  type Header = map<Str, seq<Str>>

  function Chars(s: string): (r: Str)
    requires forall i :: 0 <= i < |s| ==> s[i] as int < 256
  {
    seq(|s|, i requires 0 <= i < |s| => s[i] as int)
  }

  function PseudoKeys(): (ks: set<Str>) {
    {Chars(":method"), Chars(":scheme"), Chars(":authority"), Chars(":path"), Chars(":status")}
  }

  /** validHeaderKey: ASCII without capitals. */
  predicate ValidKey(k: Str) {
    k != [] && forall i :: 0 <= i < |k| ==> k[i] < 127 && !(65 <= k[i] <= 90)
  }

  // ----- Adding

  function AddField(h: Header, f: HeaderField): (h': Header) {
    h[f.name := (if f.name in h then h[f.name] else []) + [f.value]]
  }

  function HeaderOf(fields: seq<HeaderField>): (h: Header) {
    if fields == [] then map[] else AddField(HeaderOf(fields[..|fields| - 1]), fields[|fields| - 1])
  }

  /** The check of Header.add on a key, with the number of values already there. */
  predicate AddOk(n: nat, k: Str) {
    k != [] && (k[0] == COLON ==> n <= 5 && k in PseudoKeys()) && ValidKey(k)
  }

  /** Header.add as the decoder's handler; an empty name, on which it would not return, counts as refused. */
  ghost function AddHandler(): (h: Handler) {
    (calls: seq<HeaderField>) => calls != [] && AddOk(|calls| - 1, calls[|calls| - 1].name)
  }

  /** A key is refused if it is empty, has a capital or a character that is not ASCII, or begins with a colon
      without being one of the five pseudo-header keys or behind more than five values; and a key that is
      taken and is not a pseudo-header key is one that may be written as a regular key. */
  lemma {:induction false} RefusedKeyIff(n: nat, k: Str)
    ensures !AddOk(n, k) <==>
      || k == [] || (exists i :: 0 <= i < |k| && (k[i] > 126 || 'A' as int <= k[i] <= 'Z' as int))
      || (k[0] == ':' as int && (n > 5 || k !in [Chars(":method"), Chars(":scheme"), Chars(":authority"), Chars(":path"), Chars(":status")]))
    ensures AddOk(n, k) && k !in PseudoKeys() ==> !HB.BadKey(k)
  {
  }

  class HeaderObject {
    var m: Header
    var len: nat
    ghost var added: seq<HeaderField>

    ghost predicate Valid()
      reads this
    {
      m == HeaderOf(added) && len == |added|
    }

    constructor ()
      ensures Valid() && added == []
    {
      m, len, added := map[], 0, [];
    }

    /** The key must not be empty: the source looks at its first byte. */
    method Add(key: Str, value: Str, sensitive: bool) returns (ok: bool)
      requires Valid() && key != []
      modifies this
      ensures Valid() && ok == AddOk(old(len), key)
      ensures added == if ok then old(added) + [HeaderField(key, value, sensitive)] else old(added)
    {
      if key[0] == COLON {
        if len > 5 || key !in PseudoKeys() { return false; }
      }
      var i := 0;
      while i < |key|
        invariant 0 <= i <= |key| && forall j :: 0 <= j < i ==> key[j] < 127 && !(65 <= key[j] <= 90)
      {
        if key[i] >= 127 || 65 <= key[i] <= 90 { return false; }
        i := i + 1;
      }
      m := m[key := (if key in m then m[key] else []) + [value]];
      len := len + 1;
      ghost var more := added + [HeaderField(key, value, sensitive)];
      assert more[..|more| - 1] == added;
      added := more;
      ok := true;
    }
  }

  // ----- The values of a key

  function Values(fields: seq<HeaderField>, k: Str): (vs: seq<Str>) {
    if fields == [] then []
    else
      var f := fields[|fields| - 1];
      Values(fields[..|fields| - 1], k) + (if f.name == k then [f.value] else [])
  }

  lemma {:induction false} HeaderOfValues(fields: seq<HeaderField>, k: Str)
    ensures var h := HeaderOf(fields);
      (k in h <==> Values(fields, k) != []) && (k in h ==> h[k] == Values(fields, k))
  {
    if fields != [] {
      HeaderOfValues(fields[..|fields| - 1], k);
    }
  }

  lemma {:induction false} ValuesJoined(a: seq<HeaderField>, b: seq<HeaderField>, k: Str)
    ensures Values(a + b, k) == Values(a, k) + Values(b, k)
    decreases |b|
  {
    if b == [] {
      assert a + b == a;
    } else {
      var n := |b| - 1;
      assert (a + b)[..|a| + n] == a + b[..n];
      ValuesJoined(a, b[..n], k);
    }
  }

  lemma {:induction false} ValuesOne(f: HeaderField, k: Str)
    ensures Values([f], k) == if f.name == k then [f.value] else []
  {
    assert [f][..0] == [];
  }

  lemma {:induction false} ValuesOfKey(key: Str, values: seq<Str>, k: Str)
    ensures Values(ValueFields(key, values), k) == if k == key then values else []
    decreases |values|
  {
    if values != [] {
      var f := HeaderField(key, values[0], false);
      ValuesJoined([f], ValueFields(key, values[1..]), k);
      ValuesOne(f, k);
      ValuesOfKey(key, values[1..], k);
    }
  }

  function GroupsOf(h: Header, keys: seq<Str>): (gs: seq<Group>)
    requires forall i :: 0 <= i < |keys| ==> keys[i] in h
    ensures |gs| == |keys| && forall i :: 0 <= i < |keys| ==> gs[i] == Group(keys[i], h[keys[i]])
  {
    if keys == [] then [] else [Group(keys[0], h[keys[0]])] + GroupsOf(h, keys[1..])
  }

  predicate Distinct(keys: seq<Str>) {
    forall i, j :: 0 <= i < j < |keys| ==> keys[i] != keys[j]
  }

  lemma {:induction false} InKeys(keys: seq<Str>, k: Str)
    requires keys != [] && Distinct(keys)
    ensures k in keys <==> k == keys[0] || k in keys[1..]
    ensures !(k == keys[0] && k in keys[1..])
  {
  }

  lemma {:induction false} HeadAndTail(h: Header, keys: seq<Str>, k: Str, first: seq<Str>, others: seq<Str>)
    requires keys != [] && Distinct(keys) && forall i :: 0 <= i < |keys| ==> keys[i] in h
    requires first == if k == keys[0] then h[k] else []
    requires others == if k in keys[1..] then h[k] else []
    ensures first + others == if k in keys then h[k] else []
  {
    InKeys(keys, k);
  }

  lemma {:induction false} ValuesOfGroups(h: Header, keys: seq<Str>, k: Str)
    requires (forall i :: 0 <= i < |keys| ==> keys[i] in h) && Distinct(keys)
    ensures Values(AllFields(GroupsOf(h, keys)), k) == if k in keys then h[k] else []
    decreases |keys|
  {
    if keys != [] {
      var x, tail := keys[0], keys[1..];
      var gs := GroupsOf(h, keys);
      assert gs[1..] == GroupsOf(h, tail);
      assert AllFields(gs) == ValueFields(x, h[x]) + AllFields(GroupsOf(h, tail));
      ValuesJoined(ValueFields(x, h[x]), AllFields(GroupsOf(h, tail)), k);
      ValuesOfKey(x, h[x], k);
      assert forall i :: 0 <= i < |tail| ==> tail[i] == keys[i + 1];
      ValuesOfGroups(h, tail, k);
      HeadAndTail(h, keys, k, Values(ValueFields(x, h[x]), k), Values(AllFields(GroupsOf(h, tail)), k));
    }
  }

  /** A visit of a header: its pseudo-header keys and its regular keys, each once, in any order. */
  ghost predicate Visits(h: Header, pseudo: seq<Str>, keys: seq<Str>) {
    && Distinct(pseudo) && Distinct(keys)
    && (forall k :: k in h <==> k in pseudo || k in keys)
    && (forall i :: 0 <= i < |pseudo| ==> pseudo[i] in PseudoKeys())
    && (forall i :: 0 <= i < |keys| ==> keys[i] !in PseudoKeys())
  }

  /** One value for each pseudo-header field, at least one for each other key. */
  predicate Filled(h: Header) {
    forall k :: k in h ==> h[k] != [] && (k in PseudoKeys() ==> |h[k]| == 1)
  }

  function FieldsOf(h: Header, pseudo: seq<Str>, keys: seq<Str>): (fs: seq<HeaderField>)
    requires Visits(h, pseudo, keys) && Filled(h)
  {
    AllFields(GroupsOf(h, pseudo)) + AllFields(GroupsOf(h, keys))
  }

  /** Whatever the order of the visit, adding the fields one by one rebuilds the header. */
  lemma {:induction false} HeaderRebuilt(h: Header, pseudo: seq<Str>, keys: seq<Str>)
    requires Visits(h, pseudo, keys) && Filled(h)
    ensures HeaderOf(FieldsOf(h, pseudo, keys)) == h
  {
    var fs := FieldsOf(h, pseudo, keys);
    forall k ensures (k in HeaderOf(fs) <==> k in h) && (k in h ==> HeaderOf(fs)[k] == h[k]) {
      HeaderOfValues(fs, k);
      ValuesJoined(AllFields(GroupsOf(h, pseudo)), AllFields(GroupsOf(h, keys)), k);
      ValuesOfGroups(h, pseudo, k);
      ValuesOfGroups(h, keys, k);
    }
  }

  // ----- Acceptance

  lemma {:induction false} AllAdded(calls: seq<HeaderField>, fields: seq<HeaderField>)
    requires forall i :: 0 <= i < |fields| ==> AddOk(|calls| + i, fields[i].name)
    ensures Accepts(AddHandler(), calls, fields)
    decreases |fields|
  {
    if fields != [] {
      var f, tail := fields[0], fields[1..];
      var next := calls + [f];
      assert next[|next| - 1] == f;
      assert AddOk(|calls| + 0, fields[0].name);
      forall i | 0 <= i < |tail| ensures AddOk(|next| + i, tail[i].name) {
        assert tail[i] == fields[i + 1];
        assert AddOk(|calls| + (i + 1), fields[i + 1].name);
      }
      AllAdded(next, tail);
    }
  }

  lemma {:induction false} AtMostFive(keys: seq<Str>)
    requires Distinct(keys) && forall i :: 0 <= i < |keys| ==> keys[i] in PseudoKeys()
    ensures |keys| <= 5
  {
    var s := set i | 0 <= i < |keys| :: keys[i];
    DistinctSize(keys);
    SubsetSize(s, PseudoKeys());
    assert |PseudoKeys()| <= 5;
  }

  lemma {:induction false} DistinctSize(keys: seq<Str>)
    requires Distinct(keys)
    ensures |(set i | 0 <= i < |keys| :: keys[i])| == |keys|
    decreases |keys|
  {
    if keys != [] {
      var n := |keys| - 1;
      var front := keys[..n];
      DistinctSize(front);
      var a, b := (set i | 0 <= i < |front| :: front[i]), (set i | 0 <= i < |keys| :: keys[i]);
      assert b == a + {keys[n]} by {
        forall x ensures x in b <==> x in a + {keys[n]} {
          if x in a {
            var i :| 0 <= i < |front| && front[i] == x;
            assert keys[i] == x;
          }
        }
      }
      assert keys[n] !in a;
    }
  }

  lemma {:induction false} SubsetSize(a: set<Str>, b: set<Str>)
    requires a <= b
    ensures |a| <= |b|
  {
    assert a + (b - a) == b;
  }

  lemma {:induction false} PseudoKeysValid(k: Str)
    requires k in PseudoKeys()
    ensures ValidKey(k)
  {
  }

  lemma {:induction false} FieldNames(groups: seq<Group>, i: nat)
    requires i < |AllFields(groups)|
    ensures exists g :: 0 <= g < |groups| && groups[g].key == AllFields(groups)[i].name
    decreases |groups|
  {
    var head := ValueFields(groups[0].key, groups[0].values);
    if i < |head| {
      ValueNames(groups[0].key, groups[0].values, i);
      assert groups[0].key == AllFields(groups)[i].name;
    } else {
      FieldNames(groups[1..], i - |head|);
      var g :| 0 <= g < |groups[1..]| && groups[1..][g].key == AllFields(groups[1..])[i - |head|].name;
      assert groups[g + 1].key == AllFields(groups)[i].name;
    }
  }

  lemma {:induction false} ValueNames(key: Str, values: seq<Str>, i: nat)
    requires i < |ValueFields(key, values)|
    ensures ValueFields(key, values)[i].name == key
    decreases |values|
  {
    if i > 0 { ValueNames(key, values[1..], i - 1); }
  }

  /** The reader accepts every field of a header whose keys are valid. */
  lemma {:induction false} HeaderAccepted(h: Header, pseudo: seq<Str>, keys: seq<Str>)
    requires Visits(h, pseudo, keys) && Filled(h)
    requires forall i :: 0 <= i < |keys| ==> ValidKey(keys[i]) && !BadKey(keys[i])
    ensures Accepts(AddHandler(), [], FieldsOf(h, pseudo, keys))
  {
    var fs, ps, gs := FieldsOf(h, pseudo, keys), GroupsOf(h, pseudo), GroupsOf(h, keys);
    var n := |AllFields(ps)|;
    AtMostFive(pseudo);
    SingleCount(ps);
    forall i | 0 <= i < |fs| ensures AddOk(0 + i, fs[i].name) {
      if i < n {
        FieldNames(ps, i);
        var g :| 0 <= g < |ps| && ps[g].key == AllFields(ps)[i].name;
        PseudoKeysValid(pseudo[g]);
      } else {
        FieldNames(gs, i - n);
        var g :| 0 <= g < |gs| && gs[g].key == AllFields(gs)[i - n].name;
        assert fs[i].name == keys[g];
      }
    }
    AllAdded([], fs);
  }

  lemma {:induction false} SingleCount(groups: seq<Group>)
    requires SingleValues(groups)
    ensures |AllFields(groups)| == |groups|
    decreases |groups|
  {
    if groups != [] {
      SingleTail(groups);
      SingleCount(groups[1..]);
      ValueFieldsLength(groups[0].key, groups[0].values);
    }
  }
}
