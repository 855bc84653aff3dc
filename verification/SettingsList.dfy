/** Lists of settings (section 6.5 of RFC 7540): setting and looking up values, and reading a list
    value by value. */
module SettingsList {
  import opened Wrappers

  datatype Setting = Setting(id: nat, value: nat)

  type Settings = seq<Setting>

  const HEADER_TABLE_SIZE: nat := 1
  const ENABLE_PUSH: nat := 2
  const MAX_CONCURRENT_STREAMS: nat := 3
  const INITIAL_WINDOW_SIZE: nat := 4
  const MAX_FRAME_SIZE: nat := 5
  const MAX_HEADER_LIST_SIZE: nat := 6

  predicate ValidValue(id: nat, value: nat) {
    && (id == ENABLE_PUSH ==> value < 2)
    && (id == INITIAL_WINDOW_SIZE ==> value <= 0x7fff_ffff)
    && (id == MAX_FRAME_SIZE ==> 0x4000 <= value <= 0xff_ffff)
  }

  /** Replaces the first entry of the id, or appends one. */
  function Put(s: Settings, id: nat, value: nat): (r: Settings) {
    if s == [] then [Setting(id, value)]
    else if s[0].id == id then [Setting(id, value)] + s[1..]
    else [s[0]] + Put(s[1..], id, value)
  }

  function Lookup(s: Settings, id: nat): (v: Option<nat>) {
    if s == [] then None else if s[0].id == id then Some(s[0].value) else Lookup(s[1..], id)
  }

  /** The value in force: the stored one or the default. */
  function Value(s: Settings, id: nat): (v: nat) {
    match Lookup(s, id)
    case Some(v) => v
    case None =>
      if id == HEADER_TABLE_SIZE then 4096
      else if id == ENABLE_PUSH then 1
      else if id == MAX_CONCURRENT_STREAMS then 0x7fff_ffff
      else if id == INITIAL_WINDOW_SIZE then 65535
      else if id == MAX_FRAME_SIZE then 0x4000
      else 0
  }

  /** Reading back what was put, and nothing else changed. */
  lemma {:induction false} LookupPut(s: Settings, id: nat, value: nat, other: nat)
    ensures Lookup(Put(s, id, value), other) == if other == id then Some(value) else Lookup(s, other)
  {
    var p := Put(s, id, value);
    if s != [] {
      assert s[0].id == id ==> p[1..] == s[1..];
      if s[0].id != id {
        assert p[1..] == Put(s[1..], id, value);
        LookupPut(s[1..], id, value, other);
      }
    }
  }

  class SettingsObject {
    var list: Settings

    constructor (initial: Settings)
      ensures list == initial
    {
      list := initial;
    }

    method SetValue(id: nat, value: nat) returns (ok: bool)
      modifies this
      ensures ok == ValidValue(id, value)
      ensures list == if ok then Put(old(list), id, value) else old(list)
    {
      if !ValidValue(id, value) {
        return false;
      }
      var i := 0;
      ghost var s := list;
      while i < |list|
        invariant 0 <= i <= |list| && list == s
        invariant Put(s, id, value) == s[..i] + Put(s[i..], id, value)
      {
        if list[i].id == id {
          list := list[i := Setting(id, value)];
          assert s[i..][1..] == s[i + 1..];
          assert list == s[..i] + ([Setting(id, value)] + s[i + 1..]);
          return true;
        }
        assert s[i..][1..] == s[i + 1..];
        assert s[..i] + ([s[i]] + Put(s[i + 1..], id, value)) == s[..i + 1] + Put(s[i + 1..], id, value);
        i := i + 1;
      }
      list := list + [Setting(id, value)];
      assert s[|s|..] == [] && s[..|s|] == s;
      return true;
    }
  }

  predicate EnablesPush(settings: Settings) {
    exists i :: 0 <= i < |settings| && settings[i] == Setting(ENABLE_PUSH, 1)
  }

  // ----- Reading a list

  predicate Distinct(list: Settings) {
    forall i, j :: 0 <= i < j < |list| ==> list[i].id != list[j].id
  }

  predicate ValidValues(list: Settings) {
    forall i :: 0 <= i < |list| ==> ValidValue(list[i].id, list[i].value)
  }

  /** The list that results from setting the values one by one, as the reader of a SETTINGS frame does. */
  function PutAll(cur: Settings, list: Settings): (r: Settings)
    decreases |list|
  {
    if list == [] then cur else PutAll(Put(cur, list[0].id, list[0].value), list[1..])
  }

  predicate HasId(s: Settings, id: nat) {
    exists i :: 0 <= i < |s| && s[i].id == id
  }

  lemma {:induction false} PutLength(s: Settings, id: nat, value: nat)
    ensures |Put(s, id, value)| == |s| + if HasId(s, id) then 0 else 1
    ensures !HasId(s, id) ==> Put(s, id, value) == s + [Setting(id, value)]
  {
    if s != [] && s[0].id != id {
      PutLength(s[1..], id, value);
      if HasId(s[1..], id) {
        var i :| 0 <= i < |s[1..]| && s[1..][i].id == id;
        assert s[i + 1].id == id;
      }
      assert HasId(s, id) ==> HasId(s[1..], id) by {
        if HasId(s, id) {
          var i :| 0 <= i < |s| && s[i].id == id;
          assert s[1..][i - 1].id == id;
        }
      }
    }
  }

  lemma {:induction false} PutAllLength(cur: Settings, list: Settings)
    ensures |PutAll(cur, list)| <= |cur| + |list|
    decreases |list|
  {
    if list != [] {
      PutLength(cur, list[0].id, list[0].value);
      PutAllLength(Put(cur, list[0].id, list[0].value), list[1..]);
    }
  }

  /** Putting a list after another rebuilds it exactly if no identifier repeats. */
  lemma {:induction false} PutAllIff(cur: Settings, list: Settings)
    requires Distinct(cur)
    ensures PutAll(cur, list) == cur + list <==> Distinct(cur + list)
    decreases |list|
  {
    if list == [] {
      assert cur + list == cur;
    } else {
      var x, tail := list[0], list[1..];
      PutLength(cur, x.id, x.value);
      assert cur + list == cur + [x] + tail;
      if HasId(cur, x.id) {
        PutAllLength(Put(cur, x.id, x.value), tail);
        var i :| 0 <= i < |cur| && cur[i].id == x.id;
        assert (cur + list)[i] == cur[i] && (cur + list)[|cur|] == x;
      } else {
        assert Put(cur, x.id, x.value) == cur + [x];
        PutAllIff(cur + [x], tail);
      }
    }
  }

  lemma {:induction false} HasIdLookup(s: Settings, id: nat)
    ensures HasId(s, id) <==> Lookup(s, id).Some?
  {
    if s != [] && s[0].id != id {
      HasIdTail(s, id);
      HasIdLookup(s[1..], id);
    }
  }

  lemma {:induction false} HasIdTail(s: Settings, id: nat)
    requires s != [] && s[0].id != id
    ensures HasId(s, id) <==> HasId(s[1..], id)
  {
    if HasId(s[1..], id) {
      var i :| 0 <= i < |s[1..]| && s[1..][i].id == id;
      assert s[i + 1].id == id;
    }
    if HasId(s, id) {
      var i :| 0 <= i < |s| && s[i].id == id;
      assert s[1..][i - 1].id == id;
    }
  }

  /** The last value of an identifier in a list. */
  function LastOf(list: Settings, id: nat, default: nat): (v: nat)
    decreases |list|
  {
    if list == [] then default
    else LastOf(list[1..], id, if list[0].id == id then list[0].value else default)
  }

  function LookupOr(list: Settings, id: nat, default: nat): (v: nat) {
    match Lookup(list, id)
    case Some(v) => v
    case None => default
  }

  lemma {:induction false} PutAllLast(acc: Settings, list: Settings, id: nat, default: nat)
    ensures LookupOr(PutAll(acc, list), id, default) == LastOf(list, id, LookupOr(acc, id, default))
    decreases |list|
  {
    if list != [] {
      LookupPut(acc, list[0].id, list[0].value, id);
      PutAllLast(Put(acc, list[0].id, list[0].value), list[1..], id, default);
    }
  }

  lemma {:induction false} DistinctLast(list: Settings, id: nat, default: nat)
    requires Distinct(list)
    ensures LastOf(list, id, default) == LookupOr(list, id, default)
    decreases |list|
  {
    if list != [] {
      var tail := list[1..];
      assert forall i :: 0 <= i < |tail| ==> tail[i] == list[i + 1];
      if list[0].id == id {
        NotThere(tail, id, list[0].value);
      } else {
        DistinctLast(tail, id, default);
      }
    }
  }

  lemma {:induction false} NotThere(list: Settings, id: nat, default: nat)
    requires forall i :: 0 <= i < |list| ==> list[i].id != id
    ensures LastOf(list, id, default) == default
    decreases |list|
  {
    if list != [] { NotThere(list[1..], id, default); }
  }

  lemma {:induction false} PutDistinct(s: Settings, id: nat, value: nat)
    requires Distinct(s)
    ensures Distinct(Put(s, id, value))
    ensures forall i :: 0 <= i < |Put(s, id, value)| ==> Put(s, id, value)[i].id == id || HasId(s, Put(s, id, value)[i].id)
  {
    if s != [] && s[0].id != id {
      var tail := s[1..];
      assert forall i :: 0 <= i < |tail| ==> tail[i] == s[i + 1];
      PutDistinct(tail, id, value);
      var p := Put(tail, id, value);
      forall i | 0 <= i < |p| ensures p[i].id != s[0].id && (p[i].id == id || HasId(s, p[i].id)) {
        if p[i].id != id {
          var j :| 0 <= j < |tail| && tail[j].id == p[i].id;
          assert s[j + 1].id == p[i].id;
        }
      }
    }
  }

  lemma {:induction false} PutAllDistinct(acc: Settings, list: Settings)
    requires Distinct(acc)
    ensures Distinct(PutAll(acc, list))
    decreases |list|
  {
    if list != [] {
      PutDistinct(acc, list[0].id, list[0].value);
      PutAllDistinct(Put(acc, list[0].id, list[0].value), list[1..]);
    }
  }

  lemma {:induction false} PutTwice(s: Settings, id: nat, v: nat, w: nat)
    ensures Put(Put(s, id, v), id, w) == Put(s, id, w)
  {
    if s != [] && s[0].id != id {
      PutTwice(s[1..], id, v, w);
      assert Put(s, id, v)[1..] == Put(s[1..], id, v);
    } else if s != [] {
      assert Put(s, id, v)[1..] == s[1..];
    }
  }

  /** Values of different identifiers can be set in either order, once the first is there. */
  lemma {:induction false} PutCommute(s: Settings, id: nat, v: nat, j: nat, w: nat)
    requires HasId(s, id) && id != j
    ensures Put(Put(s, j, w), id, v) == Put(Put(s, id, v), j, w)
  {
    var a, b := Put(s, j, w), Put(s, id, v);
    if s[0].id == id {
      assert a[1..] == Put(s[1..], j, w) && b[1..] == s[1..];
    } else if s[0].id == j {
      assert a[1..] == s[1..] && b[1..] == Put(s[1..], id, v);
    } else {
      HasIdTail(s, id);
      PutCommute(s[1..], id, v, j, w);
      assert a[1..] == Put(s[1..], j, w) && b[1..] == Put(s[1..], id, v);
    }
  }
}
