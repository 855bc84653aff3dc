/** Writing a header: its fields go through the HPACK encoder key by key, and the bytes leave in
    fragments as soon as a frame is full. */
module HeaderBlocks {
  import opened Wrappers
  import opened Bits
  import opened HeaderTable
  import opened Hpack
  import opened HpackLockstep
  import opened HF = HeaderFrames
  import C = HpackCodec

  /** A regular header key with its values. */
  datatype Group = Group(key: Str, values: seq<Str>)

  const COLON: Byte := 58

  function ValueFields(key: Str, values: seq<Str>): (fs: seq<HeaderField>) {
    if values == [] then [] else [HeaderField(key, values[0], false)] + ValueFields(key, values[1..])
  }

  function AllFields(groups: seq<Group>): (fs: seq<HeaderField>) {
    if groups == [] then [] else ValueFields(groups[0].key, groups[0].values) + AllFields(groups[1..])
  }

  predicate BadKey(key: Str) {
    key == [] || key[0] == COLON
  }

  datatype WriteError = Malformed | ListTooLarge

  /** The variables of the loops, and the fragments written. */
  datatype Writer = Writer(enc: Encoder, buf: seq<Byte>, written: nat, remaining: int, first: bool, frags: seq<Frag>)

  ghost predicate Sane(w: Writer) {
    w.enc.table.size < TWO32 && w.written < TWO32
  }

  function PutField(cb: Codebook, w: Writer, hf: HeaderField): (w': Writer)
    requires Sane(w)
  {
    var (e, b, n) := EncField(cb, w.enc, hf);
    w.(enc := e, buf := w.buf + b, written := Plus32(w.written, n), remaining := w.remaining - 1)
  }

  lemma {:induction false} PutFieldSane(cb: Codebook, w: Writer, hf: HeaderField)
    requires Sane(w)
    ensures Sane(PutField(cb, w, hf))
  {
    AfterReprSize(cb, w.enc, hf);
  }

  /** The values of one key, up to the first that exceeds the limit on the header list. */
  ghost function PutValues(cb: Codebook, limit: nat, w: Writer, key: Str, values: seq<Str>): (r: (Writer, bool))
    requires Sane(w)
    ensures Sane(r.0)
    decreases |values|
  {
    if values == [] then (w, true)
    else
      PutFieldSane(cb, w, HeaderField(key, values[0], false));
      var w1 := PutField(cb, w, HeaderField(key, values[0], false));
      if limit != 0 && w1.written > limit then (w1, false) else PutValues(cb, limit, w1, key, values[1..])
  }

  /** After the values of a key: write out what fills a frame, or everything after the last value. */
  function Flush(l: Limits, w: Writer): (w': Writer)
    requires ValidLimits(l)
  {
    if w.remaining > 0 && |w.buf| < l.max then w
    else
      var d := Drain(l, w.buf, w.remaining == 0, w.first);
      w.(buf := d.rest, first := false, frags := w.frags + d.frags)
  }

  ghost function WriteGroups(cb: Codebook, l: Limits, limit: nat, w: Writer, groups: seq<Group>): (r: (Writer, Option<WriteError>))
    requires Sane(w) && ValidLimits(l)
    decreases |groups|
  {
    if groups == [] then (w, None)
    else if BadKey(groups[0].key) then (w, Some(Malformed))
    else
      var (w1, ok) := PutValues(cb, limit, w, groups[0].key, groups[0].values);
      if !ok then (w1, Some(ListTooLarge)) else WriteGroups(cb, l, limit, Flush(l, w1), groups[1..])
  }

  // ----- The encoded parts

  ghost function PartsOf(cb: Codebook, e: Encoder, groups: seq<Group>): (parts: seq<Part>)
    requires e.table.size < TWO32
    ensures |parts| == |groups|
    decreases |groups|
  {
    if groups == [] then []
    else
      var (e1, b, n) := EncFields(cb, e, ValueFields(groups[0].key, groups[0].values));
      [Part(b, |groups[0].values|)] + PartsOf(cb, e1, groups[1..])
  }

  lemma {:induction false} EncFieldsJoined(cb: Codebook, e: Encoder, a: seq<HeaderField>, b: seq<HeaderField>)
    requires e.table.size < TWO32
    ensures var (e1, b1, n1) := EncFields(cb, e, a);
      var (e2, b2, n2) := EncFields(cb, e1, b);
      EncFields(cb, e, a + b) == (e2, b1 + b2, n1 + n2)
    decreases |a|
  {
    if a == [] {
      assert a + b == b;
      assert [] + EncFields(cb, e, b).1 == EncFields(cb, e, b).1;
    } else {
      assert (a + b)[1..] == a[1..] + b;
      AfterReprSize(cb, e, a[0]);
      var (e1, b1, n1) := EncField(cb, e, a[0]);
      EncFieldsJoined(cb, e1, a[1..], b);
      var (e2, b2, n2) := EncFields(cb, e1, a[1..]);
      var (e3, b3, n3) := EncFields(cb, e2, b);
      Assoc(b1, b2, b3);
    }
  }

  lemma {:induction false} ValueFieldsLength(key: Str, values: seq<Str>)
    ensures |ValueFields(key, values)| == |values|
  {
    if values != [] { ValueFieldsLength(key, values[1..]); }
  }

  /** Key by key or at once, the encoder writes the same block. */
  lemma {:induction false} PartsMeaning(cb: Codebook, e: Encoder, groups: seq<Group>)
    requires e.table.size < TWO32
    ensures Bytes(PartsOf(cb, e, groups)) == EncFields(cb, e, AllFields(groups)).1
    ensures Count(PartsOf(cb, e, groups)) == |AllFields(groups)|
    decreases |groups|
  {
    if groups != [] {
      var fs := ValueFields(groups[0].key, groups[0].values);
      var (e1, b, n) := EncFields(cb, e, fs);
      ValueFieldsLength(groups[0].key, groups[0].values);
      EncFieldsJoined(cb, e, fs, AllFields(groups[1..]));
      PartsMeaning(cb, e1, groups[1..]);
      var parts := PartsOf(cb, e, groups);
      assert parts[1..] == PartsOf(cb, e1, groups[1..]);
    }
  }

  /** The values of a key are put one after the other, unless the last count exceeds the limit. */
  lemma {:induction false} PutValuesMeaning(cb: Codebook, limit: nat, w: Writer, key: Str, values: seq<Str>)
    requires Sane(w)
    ensures var (w', ok) := PutValues(cb, limit, w, key, values);
      && (ok ==> Advanced(cb, w, ValueFields(key, values), w'))
      && (limit == 0 ==> ok)
      && var n := EncFields(cb, w.enc, ValueFields(key, values)).2;
         w.written + n < TWO32 ==> (ok <==> limit == 0 || values == [] || w.written + n <= limit)
    decreases |values|
  {
    if values == [] {
      NothingPut(cb, w);
    } else {
      var hf := HeaderField(key, values[0], false);
      var fs := ValueFields(key, values);
      assert fs[0] == hf && fs[1..] == ValueFields(key, values[1..]);
      PutFieldSane(cb, w, hf);
      var w1 := PutField(cb, w, hf);
      PutValuesMeaning(cb, limit, w1, key, values[1..]);
      AfterReprSize(cb, w.enc, hf);
      var (e1, b1, n1) := EncField(cb, w.enc, hf);
      assert EncFields(cb, w.enc, fs).2 == n1 + EncFields(cb, e1, fs[1..]).2;
      if PutValues(cb, limit, w, key, values).1 { FieldPut(cb, w, fs, PutValues(cb, limit, w, key, values).0); }
    }
  }

  /** Without error, the keys leave the fragments of their encoded parts. */
  lemma {:induction false} WriteGroupsMeaning(cb: Codebook, l: Limits, limit: nat, w: Writer, groups: seq<Group>)
    requires Sane(w) && ValidLimits(l) && WriteGroups(cb, l, limit, w, groups).1 == None
    ensures var w' := WriteGroups(cb, l, limit, w, groups).0;
      && w'.frags == w.frags + Fragments(l, w.buf, PartsOf(cb, w.enc, groups), w.remaining, w.first)
      && w'.enc == EncFields(cb, w.enc, AllFields(groups)).0
    decreases |groups|
  {
    if groups == [] {
      assert w.frags + [] == w.frags;
    } else {
      var g, tail := groups[0], groups[1..];
      var fs := ValueFields(g.key, g.values);
      var (e1, b, n) := EncFields(cb, w.enc, fs);
      var w1 := PutValues(cb, limit, w, g.key, g.values).0;
      PutValuesMeaning(cb, limit, w, g.key, g.values);
      ValueFieldsLength(g.key, g.values);
      EncFieldsJoined(cb, w.enc, fs, AllFields(tail));
      WriteGroupsMeaning(cb, l, limit, Flush(l, w1), tail);
      var parts := PartsOf(cb, w.enc, groups);
      assert parts[0] == Part(b, |g.values|) && parts[1..] == PartsOf(cb, e1, tail);
      FlushMeaning(l, w, w1, parts);
    }
  }

  lemma {:induction false} FlushMeaning(l: Limits, w: Writer, w1: Writer, parts: seq<Part>)
    requires ValidLimits(l) && parts != []
    requires w1.buf == w.buf + parts[0].bytes && w1.remaining == w.remaining - parts[0].count
    requires w1.first == w.first && w1.frags == w.frags
    ensures var w2 := Flush(l, w1);
      w.frags + Fragments(l, w.buf, parts, w.remaining, w.first) ==
      w2.frags + Fragments(l, w2.buf, parts[1..], w2.remaining, w2.first)
  {
    var w2 := Flush(l, w1);
    if !(w1.remaining > 0 && |w1.buf| < l.max) {
      var d := Drain(l, w1.buf, w1.remaining == 0, w1.first);
      Assoc(w.frags, d.frags, Fragments(l, w2.buf, parts[1..], w2.remaining, w2.first));
    }
  }

  // ----- Errors

  /** Regular keys are written without error if and only if none is malformed and, under a limit on
      the header list, the whole list keeps to it. */
  lemma {:induction false} GroupsErrorIff(cb: Codebook, l: Limits, limit: nat, w: Writer, groups: seq<Group>)
    requires Sane(w) && ValidLimits(l) && (limit == 0 || w.written + EncFields(cb, w.enc, AllFields(groups)).2 < TWO32)
    ensures WriteGroups(cb, l, limit, w, groups).1 == None <==>
      && (forall i :: 0 <= i < |groups| ==> !BadKey(groups[i].key))
      && (limit == 0 || AllFields(groups) == [] || w.written + EncFields(cb, w.enc, AllFields(groups)).2 <= limit)
    decreases |groups|
  {
    if groups != [] && !BadKey(groups[0].key) {
      var g, tail := groups[0], groups[1..];
      var fs := ValueFields(g.key, g.values);
      PutValuesMeaning(cb, limit, w, g.key, g.values);
      ValueFieldsLength(g.key, g.values);
      EncFieldsJoined(cb, w.enc, fs, AllFields(tail));
      NoBadKey(groups);
      var (w1, ok) := PutValues(cb, limit, w, g.key, g.values);
      if ok { GroupsErrorIff(cb, l, limit, Flush(l, w1), tail); }
    }
  }

  lemma {:induction false} NoBadKey(groups: seq<Group>)
    requires groups != [] && !BadKey(groups[0].key)
    ensures (forall i :: 0 <= i < |groups| ==> !BadKey(groups[i].key)) <==>
            (forall i :: 0 <= i < |groups[1..]| ==> !BadKey(groups[1..][i].key))
  {
    var tail := groups[1..];
    assert forall i :: 0 <= i < |tail| ==> tail[i] == groups[i + 1];
    if forall i :: 0 <= i < |tail| ==> !BadKey(tail[i].key) {
      forall i | 0 <= i < |groups| ensures !BadKey(groups[i].key) {
        if i > 0 { assert groups[i] == tail[i - 1]; }
      }
    }
  }

  /** The keys that are finished when an error stops the writer. */
  ghost function Finished(cb: Codebook, l: Limits, limit: nat, w: Writer, groups: seq<Group>): (k: nat)
    requires Sane(w) && ValidLimits(l)
    ensures k <= |groups|
    decreases |groups|
  {
    if groups == [] || BadKey(groups[0].key) then 0
    else
      var (w1, ok) := PutValues(cb, limit, w, groups[0].key, groups[0].values);
      if !ok then 0 else 1 + Finished(cb, l, limit, Flush(l, w1), groups[1..])
  }

  lemma {:induction false} FinishedPrefix(cb: Codebook, l: Limits, limit: nat, w: Writer, groups: seq<Group>)
    requires Sane(w) && ValidLimits(l)
    ensures var k, r := Finished(cb, l, limit, w, groups), WriteGroups(cb, l, limit, w, groups);
      var r' := WriteGroups(cb, l, limit, w, groups[..k]);
      && (r.1 == None <==> k == |groups|)
      && r'.1 == None && r'.0.frags == r.0.frags
    decreases |groups|
  {
    var k := Finished(cb, l, limit, w, groups);
    if k > 0 {
      var w1 := PutValues(cb, limit, w, groups[0].key, groups[0].values).0;
      FinishedPrefix(cb, l, limit, Flush(l, w1), groups[1..]);
      assert groups[..k][0] == groups[0] && groups[..k][1..] == groups[1..][..k - 1];
    } else if groups != [] && !BadKey(groups[0].key) {
      PutValuesFrame(cb, limit, w, groups[0].key, groups[0].values);
    }
  }

  /** Whatever stops the writer, it has written the fragments of the keys finished before. */
  lemma {:induction false} AbortMeaning(cb: Codebook, l: Limits, limit: nat, w: Writer, groups: seq<Group>)
    requires Sane(w) && ValidLimits(l)
    ensures var k, r := Finished(cb, l, limit, w, groups), WriteGroups(cb, l, limit, w, groups);
      && (r.1 == None <==> k == |groups|)
      && r.0.frags == w.frags + Fragments(l, w.buf, PartsOf(cb, w.enc, groups[..k]), w.remaining, w.first)
  {
    FinishedPrefix(cb, l, limit, w, groups);
    WriteGroupsMeaning(cb, l, limit, w, groups[..Finished(cb, l, limit, w, groups)]);
  }

  lemma {:induction false} AllFieldsSplit(groups: seq<Group>, k: nat)
    requires k <= |groups|
    ensures AllFields(groups) == AllFields(groups[..k]) + AllFields(groups[k..])
    decreases k
  {
    if k == 0 {
      assert groups[0..] == groups && groups[..0] == [];
      assert [] + AllFields(groups) == AllFields(groups);
    } else {
      var fs := ValueFields(groups[0].key, groups[0].values);
      AllFieldsSplit(groups[1..], k - 1);
      assert groups[..k][0] == groups[0] && groups[..k][1..] == groups[1..][..k - 1] && groups[1..][k - 1..] == groups[k..];
      Assoc(fs, AllFields(groups[1..][..k - 1]), AllFields(groups[k..]));
    }
  }

  /** After an error the block is ended if and only if some keys were finished and no value remained
      behind them; otherwise what was written is a beginning of the block. */
  lemma {:induction false} AbortedIff(cb: Codebook, l: Limits, limit: nat, w: Writer, groups: seq<Group>)
    requires Sane(w) && ValidLimits(l) && w.frags == [] && w.remaining == |AllFields(groups)|
    ensures var k, frags := Finished(cb, l, limit, w, groups), WriteGroups(cb, l, limit, w, groups).0.frags;
      && (HasEnd(frags) <==> k > 0 && AllFields(groups[k..]) == [])
      && (AllFields(groups[k..]) != [] ==>
            Ends(frags, false) && HF.Block(frags) <= w.buf + EncFields(cb, w.enc, AllFields(groups[..k])).1)
  {
    AbortMeaning(cb, l, limit, w, groups);
    var k := Finished(cb, l, limit, w, groups);
    var parts := PartsOf(cb, w.enc, groups[..k]);
    AllFieldsSplit(groups, k);
    PartsMeaning(cb, w.enc, groups[..k]);
    assert [] + Fragments(l, w.buf, parts, w.remaining, w.first) == Fragments(l, w.buf, parts, w.remaining, w.first);
    EndedIff(l, w.buf, parts, w.remaining, w.first);
    if w.remaining > Count(parts) { AbortedPrefix(l, w.buf, parts, w.remaining, w.first); }
  }

  /** The position of the first malformed key. */
  function FirstBad(groups: seq<Group>): (k: nat)
    ensures k <= |groups|
    ensures forall i :: 0 <= i < k ==> !BadKey(groups[i].key)
    ensures k < |groups| ==> BadKey(groups[k].key)
  {
    if groups == [] || BadKey(groups[0].key) then 0 else 1 + FirstBad(groups[1..])
  }

  /** The keys before the first malformed one keep to the limit on the header list, if there is one. */
  ghost predicate Within(cb: Codebook, limit: nat, w: Writer, groups: seq<Group>)
    requires Sane(w)
  {
    limit == 0 || w.written + EncFields(cb, w.enc, AllFields(groups[..FirstBad(groups)])).2 <= limit < TWO32
  }

  lemma {:induction false} WithinTail(cb: Codebook, l: Limits, limit: nat, w: Writer, groups: seq<Group>)
    requires Sane(w) && ValidLimits(l) && Within(cb, limit, w, groups) && groups != [] && !BadKey(groups[0].key)
    ensures var (w1, ok) := PutValues(cb, limit, w, groups[0].key, groups[0].values);
      ok && Within(cb, limit, Flush(l, w1), groups[1..])
    ensures var k := FirstBad(groups); k > 0 && groups[..k][0] == groups[0] && groups[..k][1..] == groups[1..][..k - 1]
  {
    var g, tail, k := groups[0], groups[1..], FirstBad(groups);
    assert groups[..k][0] == g && groups[..k][1..] == tail[..k - 1];
    PutValuesMeaning(cb, limit, w, g.key, g.values);
    EncFieldsJoined(cb, w.enc, ValueFields(g.key, g.values), AllFields(tail[..k - 1]));
  }

  /** Then the writer stops at the first malformed key, or not at all. */
  lemma {:induction false} FinishedIsFirstBad(cb: Codebook, l: Limits, limit: nat, w: Writer, groups: seq<Group>)
    requires Sane(w) && ValidLimits(l) && Within(cb, limit, w, groups)
    ensures Finished(cb, l, limit, w, groups) == FirstBad(groups)
    ensures WriteGroups(cb, l, limit, w, groups).1 == if FirstBad(groups) == |groups| then None else Some(Malformed)
    decreases |groups|
  {
    if groups != [] && !BadKey(groups[0].key) {
      WithinTail(cb, l, limit, w, groups);
      var w1 := PutValues(cb, limit, w, groups[0].key, groups[0].values).0;
      FinishedIsFirstBad(cb, l, limit, Flush(l, w1), groups[1..]);
    }
  }

  /** A malformed key is reported after the block was ended if and only if it is not the first key and no
      value comes with it or after it; otherwise what was written is a beginning of the block. */
  lemma {:induction false} MalformedIff(cb: Codebook, l: Limits, limit: nat, w: Writer, groups: seq<Group>)
    requires Sane(w) && ValidLimits(l) && w.frags == [] && w.remaining == |AllFields(groups)|
    requires Within(cb, limit, w, groups) && FirstBad(groups) < |groups|
    ensures var k, r := FirstBad(groups), WriteGroups(cb, l, limit, w, groups);
      && r.1 == Some(Malformed)
      && (HasEnd(r.0.frags) <==> k > 0 && AllFields(groups[k..]) == [])
      && (AllFields(groups[k..]) != [] ==>
            Ends(r.0.frags, false) && HF.Block(r.0.frags) <= w.buf + EncFields(cb, w.enc, AllFields(groups[..k])).1)
  {
    FinishedIsFirstBad(cb, l, limit, w, groups);
    AbortedIff(cb, l, limit, w, groups);
  }

  lemma {:induction false} LargeStopsAtValue(cb: Codebook, l: Limits, limit: nat, w: Writer, groups: seq<Group>)
    requires Sane(w) && ValidLimits(l) && WriteGroups(cb, l, limit, w, groups).1 == Some(ListTooLarge)
    ensures var k := Finished(cb, l, limit, w, groups); k < |groups| && groups[k].values != []
    decreases |groups|
  {
    var (w1, ok) := PutValues(cb, limit, w, groups[0].key, groups[0].values);
    if ok { LargeStopsAtValue(cb, l, limit, Flush(l, w1), groups[1..]); }
  }

  /** A header list that exceeds its limit is never ended. */
  lemma {:induction false} LargeNeverEnds(cb: Codebook, l: Limits, limit: nat, w: Writer, groups: seq<Group>)
    requires Sane(w) && ValidLimits(l) && w.frags == [] && w.remaining == |AllFields(groups)|
    requires WriteGroups(cb, l, limit, w, groups).1 == Some(ListTooLarge)
    ensures !HasEnd(WriteGroups(cb, l, limit, w, groups).0.frags)
  {
    AbortedIff(cb, l, limit, w, groups);
    LargeStopsAtValue(cb, l, limit, w, groups);
    var k := Finished(cb, l, limit, w, groups);
    assert groups[k..][0] == groups[k];
    ValueFieldsLength(groups[k].key, groups[k].values);
  }

  /** The keys "a" with the value "1" and then "" without values: the block is ended before the error. */
  lemma {:induction false} EndedThenMalformed(cb: Codebook, l: Limits, w: Writer)
    requires Sane(w) && ValidLimits(l) && w.frags == [] && w.remaining == 1
    ensures var r := WriteGroups(cb, l, 0, w, [Group([97], [[49]]), Group([], [])]);
      r.1 == Some(Malformed) && HasEnd(r.0.frags)
  {
    var a, b := Group([97], [[49]]), Group([], []);
    var groups := [a, b];
    assert groups[1..] == [b] && [b][1..] == [];
    assert FirstBad([b]) == 0 && FirstBad(groups) == 1;
    ValueFieldsLength(a.key, a.values);
    ValueFieldsLength(b.key, b.values);
    assert AllFields([b]) == ValueFields(b.key, b.values) + AllFields([]);
    assert AllFields(groups) == ValueFields(a.key, a.values) + AllFields([b]);
    assert groups[1..] == [b];
    MalformedIff(cb, l, 0, w, groups);
  }

  // ----- Errors and HPACK

  lemma {:induction false} PutValuesEncoder(cb: Codebook, limit: nat, w: Writer, key: Str, values: seq<Str>)
    requires Sane(w)
    ensures var w' := PutValues(cb, limit, w, key, values).0;
      TookIn(cb, w.enc, ValueFields(key, values), w.remaining - w'.remaining, w'.enc)
    decreases |values|
  {
    if values != [] {
      var hf := HeaderField(key, values[0], false);
      var fs := ValueFields(key, values);
      assert fs[1..] == ValueFields(key, values[1..]);
      PutFieldSane(cb, w, hf);
      var w1 := PutField(cb, w, hf);
      PutValuesEncoder(cb, limit, w1, key, values[1..]);
      var m := w.remaining - PutValues(cb, limit, w, key, values).0.remaining;
      assert fs[..m][0] == hf && fs[..m][1..] == fs[1..][..m - 1];
      if m == 1 { assert fs[1..][..0] == []; }
    }
  }

  /** The encoder has taken in the first m fields. */
  ghost predicate TookIn(cb: Codebook, e: Encoder, fields: seq<HeaderField>, m: int, e': Encoder)
    requires e.table.size < TWO32
  {
    0 <= m <= |fields| && e' == EncFields(cb, e, fields[..m]).0
  }

  lemma {:induction false} TookInNothing(cb: Codebook, e: Encoder, fields: seq<HeaderField>)
    requires e.table.size < TWO32
    ensures TookIn(cb, e, fields, 0, e)
  {
    assert fields[..0] == [];
  }

  lemma {:induction false} TookInMore(cb: Codebook, e: Encoder, a: seq<HeaderField>, b: seq<HeaderField>, m: int, e': Encoder)
    requires e.table.size < TWO32 && TookIn(cb, EncFields(cb, e, a).0, b, m, e')
    ensures TookIn(cb, e, a + b, |a| + m, e')
  {
    EncFieldsJoined(cb, e, a, b[..m]);
    assert (a + b)[..|a| + m] == a + b[..m];
  }

  lemma {:induction false} TookInPart(cb: Codebook, e: Encoder, a: seq<HeaderField>, b: seq<HeaderField>, m: int, e': Encoder)
    requires e.table.size < TWO32 && TookIn(cb, e, a, m, e')
    ensures TookIn(cb, e, a + b, m, e')
  {
    assert (a + b)[..m] == a[..m];
  }

  lemma {:induction false} TookInAll(cb: Codebook, e: Encoder, a: seq<HeaderField>, b: seq<HeaderField>, m: int, m': int, e': Encoder)
    requires e.table.size < TWO32 && m' == |a| + m && TookIn(cb, EncFields(cb, e, a).0, b, m, e')
    ensures TookIn(cb, e, a + b, m', e')
  {
    TookInMore(cb, e, a, b, m, e');
  }

  /** What the encoder of the writer has taken in. */
  ghost predicate GroupsTookIn(cb: Codebook, l: Limits, limit: nat, w: Writer, groups: seq<Group>)
    requires Sane(w) && ValidLimits(l)
  {
    var w' := WriteGroups(cb, l, limit, w, groups).0;
    TookIn(cb, w.enc, AllFields(groups), w.remaining - w'.remaining, w'.enc)
  }

  lemma {:induction false} StopTookIn(cb: Codebook, l: Limits, limit: nat, w: Writer, groups: seq<Group>)
    requires Sane(w) && ValidLimits(l) && (groups == [] || BadKey(groups[0].key))
    ensures GroupsTookIn(cb, l, limit, w, groups)
  {
    TookInNothing(cb, w.enc, AllFields(groups));
  }

  lemma {:induction false} KeyTookIn(cb: Codebook, l: Limits, limit: nat, w: Writer, groups: seq<Group>)
    requires Sane(w) && ValidLimits(l) && groups != [] && !BadKey(groups[0].key)
    requires var (w1, ok) := PutValues(cb, limit, w, groups[0].key, groups[0].values);
      ok && GroupsTookIn(cb, l, limit, Flush(l, w1), groups[1..])
    ensures GroupsTookIn(cb, l, limit, w, groups)
  {
    var g, rest := groups[0], AllFields(groups[1..]);
    var head := ValueFields(g.key, g.values);
    ValuesPut(cb, limit, w, g.key, g.values);
    var w2 := Flush(l, PutValues(cb, limit, w, g.key, g.values).0);
    var w' := WriteGroups(cb, l, limit, w2, groups[1..]).0;
    TookInAll(cb, w.enc, head, rest, w2.remaining - w'.remaining, w.remaining - w'.remaining, w'.enc);
  }

  lemma {:induction false} ValuesPut(cb: Codebook, limit: nat, w: Writer, key: Str, values: seq<Str>)
    requires Sane(w) && PutValues(cb, limit, w, key, values).1
    ensures var w', fs := PutValues(cb, limit, w, key, values).0, ValueFields(key, values);
      w'.enc == EncFields(cb, w.enc, fs).0 && w'.remaining == w.remaining - |fs|
  {
    PutValuesMeaning(cb, limit, w, key, values);
  }

  lemma {:induction false} LargeTookIn(cb: Codebook, l: Limits, limit: nat, w: Writer, groups: seq<Group>)
    requires Sane(w) && ValidLimits(l) && groups != [] && !BadKey(groups[0].key)
    requires !PutValues(cb, limit, w, groups[0].key, groups[0].values).1
    ensures GroupsTookIn(cb, l, limit, w, groups)
  {
    var g, rest := groups[0], AllFields(groups[1..]);
    var w1 := PutValues(cb, limit, w, g.key, g.values).0;
    PutValuesEncoder(cb, limit, w, g.key, g.values);
    TookInPart(cb, w.enc, ValueFields(g.key, g.values), rest, w.remaining - w1.remaining, w1.enc);
  }

  /** Whatever stops the writer, its encoder has taken in the fields up to there. */
  lemma {:induction false} WriteGroupsEncoder(cb: Codebook, l: Limits, limit: nat, w: Writer, groups: seq<Group>)
    requires Sane(w) && ValidLimits(l)
    ensures GroupsTookIn(cb, l, limit, w, groups)
    decreases |groups|
  {
    if groups == [] || BadKey(groups[0].key) {
      StopTookIn(cb, l, limit, w, groups);
    } else {
      var (w1, ok) := PutValues(cb, limit, w, groups[0].key, groups[0].values);
      if ok {
        WriteGroupsEncoder(cb, l, limit, Flush(l, w1), groups[1..]);
        KeyTookIn(cb, l, limit, w, groups);
      } else {
        LargeTookIn(cb, l, limit, w, groups);
      }
    }
  }

  lemma {:induction false} EncoderAfter(cb: Codebook, e: Encoder, fields: seq<HeaderField>)
    requires Exact(e.table) && forall f :: f in fields ==> Encodable(f)
    ensures var e' := EncFields(cb, e, fields).0;
      && Exact(e'.table) && e'.table.maxSize == e.table.maxSize
      && (fields == [] ==> e' == e)
      && (fields != [] ==> !e'.sizeChanged && e'.minSize == if e.sizeChanged then TWO32 - 1 else e.minSize)
    decreases |fields|
  {
    if fields != [] {
      assert fields[0] in fields && Encodable(fields[0]);
      TableExact(e.table, 0, Plain(fields[0]));
      AfterReprSize(cb, e, fields[0]);
      EncoderAfter(cb, EncField(cb, e, fields[0]).0, fields[1..]);
    }
  }

  /** The decoder has applied every size it was given and awaits no update. */
  predicate Settled(d: Decoder) {
    !d.sizeChanged && d.maxSize == d.maxSizeLimit == d.table.maxSize
  }

  /** A reader that never sees the fields of an abandoned header stays in step if and only if the
      encoder's table is still its own and no size update was lost with them: when none was pending,
      if and only if the encoder's table is unchanged. */
  lemma {:induction false} AbandonedIff(cb: Codebook, e: Encoder, d: Decoder, fields: seq<HeaderField>)
    requires Synced(e, d) && fields != [] && forall f :: f in fields ==> Encodable(f)
    ensures var e' := EncFields(cb, e, fields).0;
      && (Synced(e', d) <==> e'.table == d.table && Settled(d))
      && (!e.sizeChanged ==> (Synced(e', d) <==> e'.table == e.table))
  {
    EncoderAfter(cb, e, fields);
  }

  /** The field is not added to the table. */
  predicate Kept(cb: Codebook, e: Encoder, hf: HeaderField) {
    var r := Choose(cb, e, hf); !(r.Literal? && r.kind == IndexedTrue)
  }

  predicate AllKept(cb: Codebook, e: Encoder, fields: seq<HeaderField>) {
    forall i :: 0 <= i < |fields| ==> Kept(cb, e, fields[i])
  }

  function SumSizes(fields: seq<HeaderField>): (n: nat) {
    if fields == [] then 0 else SizeOf(Plain(fields[0])) + SumSizes(fields[1..])
  }

  lemma {:induction false} KeptTail(cb: Codebook, e: Encoder, e1: Encoder, fields: seq<HeaderField>)
    requires fields != [] && e1.table == e.table && e1.indexing == e.indexing
    ensures AllKept(cb, e, fields) <==> Kept(cb, e, fields[0]) && AllKept(cb, e1, fields[1..])
  {
    var tail := fields[1..];
    assert forall i :: 0 <= i < |tail| ==> tail[i] == fields[i + 1];
    forall i | 0 <= i < |tail| ensures Kept(cb, e1, tail[i]) == Kept(cb, e, tail[i]) {
      assert Choose(cb, e1, tail[i]) == Choose(cb, e, tail[i]);
    }
    if Kept(cb, e, fields[0]) && AllKept(cb, e1, tail) {
      forall i | 0 <= i < |fields| ensures Kept(cb, e, fields[i]) {
        if i > 0 { assert fields[i] == tail[i - 1]; }
      }
    }
  }

  /** Fields that are not added leave the table alone. */
  lemma {:induction false} KeptStays(cb: Codebook, e: Encoder, fields: seq<HeaderField>)
    requires e.table.size < TWO32 && AllKept(cb, e, fields)
    ensures EncFields(cb, e, fields).0.table == e.table
    decreases |fields|
  {
    if fields != [] {
      var e1 := EncField(cb, e, fields[0]).0;
      AfterReprSize(cb, e, fields[0]);
      KeptTail(cb, e, e1, fields);
      KeptStays(cb, e1, fields[1..]);
    }
  }

  lemma {:induction false} AddGrows(t: Table, f: Field)
    requires Exact(t) && SizeOf(f) < TWO32 && t.size + SizeOf(f) <= t.maxSize
    ensures Exact(Add(t, f)) && Add(t, f).size == t.size + SizeOf(f) && Add(t, f).maxSize == t.maxSize
    ensures |Add(t, f).entries| == |t.entries| + 1
  {
    AddExact(t, f);
    var s := t.entries + [f];
    assert s[..|s| - 1] == t.entries;
    assert Total(s) == t.size + SizeOf(f);
  }

  /** While nothing needs to be evicted, the table is unchanged if and only if no field is added. */
  lemma {:induction false} KeptIff(cb: Codebook, e: Encoder, fields: seq<HeaderField>)
    requires Exact(e.table) && (forall f :: f in fields ==> Encodable(f)) && e.table.size + SumSizes(fields) <= e.table.maxSize
    ensures |EncFields(cb, e, fields).0.table.entries| >= |e.table.entries|
    ensures EncFields(cb, e, fields).0.table == e.table <==> AllKept(cb, e, fields)
    decreases |fields|
  {
    if fields != [] {
      var hf := fields[0];
      assert hf in fields && Encodable(hf);
      AfterReprSize(cb, e, hf);
      var e1 := EncField(cb, e, hf).0;
      assert forall f :: f in fields[1..] ==> f in fields;
      if Kept(cb, e, hf) {
        KeptTail(cb, e, e1, fields);
        KeptIff(cb, e1, fields[1..]);
      } else {
        AddGrows(e.table, Plain(hf));
        KeptIff(cb, e1, fields[1..]);
      }
    }
  }

  /** What a reader that sees nothing of the fields needs, on the encoder before them. Without a pending
      size update: while nothing would be evicted, it stays in step if and only if no field is
      added to the table. With one: if no field is added, it stays in step if and only if it is already
      where the update leads. */
  lemma {:induction false} UnseenIff(cb: Codebook, e: Encoder, d: Decoder, fields: seq<HeaderField>)
    requires Synced(e, d) && forall f :: f in fields ==> Encodable(f)
    ensures var e' := EncFields(cb, e, fields).0;
      && (!e.sizeChanged && AllKept(cb, e, fields) ==> Synced(e', d))
      && (!e.sizeChanged && e.table.size + SumSizes(fields) <= e.table.maxSize ==> (Synced(e', d) <==> AllKept(cb, e, fields)))
      && (e.sizeChanged && fields != [] && AllKept(cb, e, fields) ==> (Synced(e', d) <==> e.table == d.table && Settled(d)))
  {
    if fields != [] { AbandonedIff(cb, e, d, fields); }
    if AllKept(cb, e, fields) { KeptStays(cb, e, fields); }
    if e.table.size + SumSizes(fields) <= e.table.maxSize { KeptIff(cb, e, fields); }
  }

  // ----- Pseudo-header fields

  /** Keys with at least one value; the writer takes the first one unseen. */
  predicate HaveValues(groups: seq<Group>) {
    forall i :: 0 <= i < |groups| ==> groups[i].values != []
  }

  predicate SingleValues(groups: seq<Group>) {
    forall i :: 0 <= i < |groups| ==> |groups[i].values| == 1
  }

  /** The pseudo-header fields go first, one value each, and are not held against the limit. */
  ghost function WritePseudo(cb: Codebook, w: Writer, pseudo: seq<Group>): (r: (Writer, bool))
    requires Sane(w) && HaveValues(pseudo)
    ensures Sane(r.0)
    decreases |pseudo|
  {
    if pseudo == [] then (w, true)
    else if |pseudo[0].values| > 1 then (w, false)
    else
      var hf := HeaderField(pseudo[0].key, pseudo[0].values[0], false);
      PutFieldSane(cb, w, hf);
      WritePseudo(cb, PutField(cb, w, hf), pseudo[1..])
  }

  /** The writer's variables after some fields: encoder, bytes and count are those of encoding them. */
  ghost predicate Advanced(cb: Codebook, w: Writer, fields: seq<HeaderField>, w': Writer)
    requires Sane(w)
  {
    var (e, b, n) := EncFields(cb, w.enc, fields);
    && w'.enc == e && w'.buf == w.buf + b && w'.remaining == w.remaining - |fields|
    && w'.first == w.first && w'.frags == w.frags
    && (w.written + n < TWO32 ==> w'.written == w.written + n)
  }

  lemma {:induction false} NothingPut(cb: Codebook, w: Writer)
    requires Sane(w)
    ensures Advanced(cb, w, [], w)
  {
    assert w.buf + [] == w.buf;
  }

  lemma {:induction false} FieldPut(cb: Codebook, w: Writer, fields: seq<HeaderField>, w': Writer)
    requires Sane(w) && fields != [] && Sane(PutField(cb, w, fields[0]))
    requires Advanced(cb, PutField(cb, w, fields[0]), fields[1..], w')
    ensures Advanced(cb, w, fields, w')
  {
    var w1 := PutField(cb, w, fields[0]);
    AfterReprSize(cb, w.enc, fields[0]);
    var (e1, b1, n1) := EncField(cb, w.enc, fields[0]);
    var (e2, b2, n2) := EncFields(cb, e1, fields[1..]);
    assert EncFields(cb, w.enc, fields) == (e2, b1 + b2, n1 + n2);
    Assoc(w.buf, b1, b2);
  }

  lemma {:induction false} WritePseudoMeaning(cb: Codebook, w: Writer, pseudo: seq<Group>)
    requires Sane(w) && HaveValues(pseudo)
    ensures WritePseudo(cb, w, pseudo).1 <==> SingleValues(pseudo)
    ensures WritePseudo(cb, w, pseudo).1 ==> Advanced(cb, w, AllFields(pseudo), WritePseudo(cb, w, pseudo).0)
    decreases |pseudo|
  {
    if pseudo == [] {
      NothingPut(cb, w);
    } else if |pseudo[0].values| == 1 {
      var hf, tail := HeaderField(pseudo[0].key, pseudo[0].values[0], false), pseudo[1..];
      PutFieldSane(cb, w, hf);
      assert forall i :: 0 <= i < |tail| ==> tail[i] == pseudo[i + 1];
      WritePseudoMeaning(cb, PutField(cb, w, hf), tail);
      SingleTail(pseudo);
      OneField(pseudo[0].key, pseudo[0].values, AllFields(tail));
      if WritePseudo(cb, w, pseudo).1 { FieldPut(cb, w, AllFields(pseudo), WritePseudo(cb, w, pseudo).0); }
    }
  }

  lemma {:induction false} SingleTail(groups: seq<Group>)
    requires groups != [] && |groups[0].values| == 1
    ensures SingleValues(groups) <==> SingleValues(groups[1..])
  {
    var tail := groups[1..];
    assert forall i :: 0 <= i < |tail| ==> tail[i] == groups[i + 1];
    if SingleValues(tail) {
      forall i | 0 <= i < |groups| ensures |groups[i].values| == 1 {
        if i > 0 { assert groups[i] == tail[i - 1]; }
      }
    }
  }

  lemma {:induction false} OneField(key: Str, values: seq<Str>, rest: seq<HeaderField>)
    requires |values| == 1
    ensures var fs := ValueFields(key, values) + rest;
      fs != [] && fs[0] == HeaderField(key, values[0], false) && fs[1..] == rest
  {
    assert values[1..] == [];
    assert ValueFields(key, values) == [HeaderField(key, values[0], false)];
  }

  /** Everything after the checks on the frame: pseudo-header keys, then regular keys. */
  ghost function WriteKeys(cb: Codebook, l: Limits, limit: nat, w: Writer, pseudo: seq<Group>, groups: seq<Group>)
    : (r: (Writer, Option<WriteError>))
    requires Sane(w) && ValidLimits(l) && HaveValues(pseudo)
  {
    var (w1, ok) := WritePseudo(cb, w, pseudo);
    if !ok then (w1, Some(Malformed)) else WriteGroups(cb, l, limit, w1, groups)
  }

  // ----- The loops as the source has them

  ghost predicate Shows(enc: C.EncoderObject, w: Writer)
    reads enc, enc.table, enc.table.buf
  {
    enc.Valid() && w.enc == enc.View() && Sane(w)
  }

  ghost function Book(enc: C.EncoderObject): (cb: Codebook) {
    C.BookOf(enc.codes, enc.statics)
  }

  method EncodeOne(enc: C.EncoderObject, buf: seq<Byte>, written: nat, hf: HeaderField, ghost w: Writer)
    returns (buf': seq<Byte>, written': nat, ghost w': Writer)
    requires Shows(enc, w) && w.buf == buf && w.written == written
    modifies enc`minSize, enc`sizeChanged, enc.table`buf, enc.table`len, enc.table`size, enc.table.buf
    ensures enc.table.buf == old(enc.table.buf) || fresh(enc.table.buf)
    ensures w' == PutField(Book(enc), w, hf) && Shows(enc, w') && w'.buf == buf' && w'.written == written'
  {
    var n;
    n, buf' := enc.EncodeHeaderField(buf, hf);
    written' := Plus32(written, n);
    w' := PutField(Book(enc), w, hf);
    PutFieldSane(Book(enc), w, hf);
  }

  method EncodePseudo(enc: C.EncoderObject, pseudo: seq<Group>, ghost w: Writer)
    returns (buf: seq<Byte>, written: nat, remaining: int, ok: bool, ghost w': Writer)
    requires Shows(enc, w) && w.buf == [] && w.written == 0 && HaveValues(pseudo)
    modifies enc`minSize, enc`sizeChanged, enc.table`buf, enc.table`len, enc.table`size, enc.table.buf
    ensures enc.table.buf == old(enc.table.buf) || fresh(enc.table.buf)
    ensures (w', ok) == WritePseudo(Book(enc), w, pseudo)
    ensures Shows(enc, w') && w'.buf == buf && w'.written == written && w'.remaining == w.remaining + remaining
  {
    buf, written, remaining, ok, w' := [], 0, 0, true, w;
    for i := 0 to |pseudo|
      invariant enc.table.buf == old(enc.table.buf) || fresh(enc.table.buf)
      invariant Shows(enc, w') && w'.buf == buf && w'.written == written && w'.remaining == w.remaining + remaining
      invariant HaveValues(pseudo[i..])
      invariant WritePseudo(Book(enc), w, pseudo) == WritePseudo(Book(enc), w', pseudo[i..])
    {
      assert pseudo[i..][0] == pseudo[i] && pseudo[i..][1..] == pseudo[i + 1..];
      if |pseudo[i].values| > 1 {
        return buf, written, remaining, false, w';
      }
      buf, written, w' := EncodeOne(enc, buf, written, HeaderField(pseudo[i].key, pseudo[i].values[0], false), w');
      remaining := remaining - 1;
    }
  }

  method EncodeValues(enc: C.EncoderObject, buf0: seq<Byte>, written0: nat, limit: nat, key: Str, values: seq<Str>, ghost w: Writer)
    returns (buf: seq<Byte>, written: nat, ok: bool, ghost w': Writer)
    requires Shows(enc, w) && w.buf == buf0 && w.written == written0
    modifies enc`minSize, enc`sizeChanged, enc.table`buf, enc.table`len, enc.table`size, enc.table.buf
    ensures enc.table.buf == old(enc.table.buf) || fresh(enc.table.buf)
    ensures (w', ok) == PutValues(Book(enc), limit, w, key, values)
    ensures Shows(enc, w') && w'.buf == buf && w'.written == written
  {
    buf, written, w' := buf0, written0, w;
    for i := 0 to |values|
      invariant enc.table.buf == old(enc.table.buf) || fresh(enc.table.buf)
      invariant Shows(enc, w') && w'.buf == buf && w'.written == written
      invariant PutValues(Book(enc), limit, w, key, values) == PutValues(Book(enc), limit, w', key, values[i..])
    {
      assert values[i..][1..] == values[i + 1..];
      buf, written, w' := EncodeOne(enc, buf, written, HeaderField(key, values[i], false), w');
      if limit != 0 && written > limit {
        return buf, written, false, w';
      }
    }
    ok := true;
  }

  /** The common loop of HeadersFrame.writeTo and PushPromiseFrame.writeTo for a header with values:
      the fragments written and the error. */
  method WriteHeader(enc: C.EncoderObject, l: Limits, limit: nat, pseudo: seq<Group>, groups: seq<Group>, len: int)
    returns (frags: seq<Frag>, err: Option<WriteError>)
    requires enc.Valid() && ValidLimits(l) && enc.View().table.size < TWO32 && HaveValues(pseudo)
    modifies enc`minSize, enc`sizeChanged, enc.table`buf, enc.table`len, enc.table`size, enc.table.buf
    ensures enc.Valid() && var w0 := Writer(old(enc.View()), [], 0, len, true, []);
      var (w, e) := WriteKeys(Book(enc), l, limit, w0, pseudo, groups);
      frags == w.frags && err == e && enc.View() == w.enc
  {
    ghost var w := Writer(enc.View(), [], 0, len, true, []);
    frags, err := [], None;
    PseudoFrame(Book(enc), w, pseudo);
    var buf, written, put, single;
    buf, written, put, single, w := EncodePseudo(enc, pseudo, w);
    if !single {
      return frags, Some(Malformed);
    }
    var remaining, first := len + put, true;
    ghost var goal := WriteGroups(Book(enc), l, limit, w, groups);
    for i := 0 to |groups|
      invariant enc.table.buf == old(enc.table.buf) || fresh(enc.table.buf)
      invariant Shows(enc, w) && w == Writer(w.enc, buf, written, remaining, first, frags)
      invariant goal == WriteGroups(Book(enc), l, limit, w, groups[i..])
    {
      var key, values := groups[i].key, groups[i].values;
      assert groups[i..][0] == groups[i] && groups[i..][1..] == groups[i + 1..];
      if BadKey(key) {
        return frags, Some(Malformed);
      }
      var ok;
      ghost var w1;
      buf, written, ok, w1 := EncodeValues(enc, buf, written, limit, key, values, w);
      PutValuesFrame(Book(enc), limit, w, key, values);
      if !ok {
        return frags, Some(ListTooLarge);
      }
      remaining := remaining - |values|;
      w := Flush(l, w1);
      if !(remaining > 0 && |buf| < l.max) {
        var out;
        out, buf := WriteOut(l, buf, remaining == 0, first);
        frags, first := frags + out, false;
      }
    }
  }

  lemma {:induction false} PseudoFrame(cb: Codebook, w: Writer, pseudo: seq<Group>)
    requires Sane(w) && HaveValues(pseudo)
    ensures var w' := WritePseudo(cb, w, pseudo).0; w'.first == w.first && w'.frags == w.frags
    decreases |pseudo|
  {
    if pseudo != [] && |pseudo[0].values| == 1 {
      var hf := HeaderField(pseudo[0].key, pseudo[0].values[0], false);
      PutFieldSane(cb, w, hf);
      assert forall i :: 0 <= i < |pseudo[1..]| ==> pseudo[1..][i] == pseudo[i + 1];
      PseudoFrame(cb, PutField(cb, w, hf), pseudo[1..]);
    }
  }

  lemma {:induction false} PutValuesFrame(cb: Codebook, limit: nat, w: Writer, key: Str, values: seq<Str>)
    requires Sane(w)
    ensures var (w', ok) := PutValues(cb, limit, w, key, values);
      w'.first == w.first && w'.frags == w.frags && (ok ==> w'.remaining == w.remaining - |values|)
    decreases |values|
  {
    if values != [] {
      PutFieldSane(cb, w, HeaderField(key, values[0], false));
      PutValuesFrame(cb, limit, PutField(cb, w, HeaderField(key, values[0], false)), key, values[1..]);
    }
  }
}
