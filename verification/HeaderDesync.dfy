/** A header with a malformed key that leaves encoder and decoder out of step without a byte being written. */
module HeaderDesync {
  import opened Wrappers
  import opened IntegerCodec
  import opened HeaderTable
  import opened HeaderIndex
  import opened Hpack
  import opened HpackLockstep
  import opened HpackStatic
  import opened HeaderFrames
  import opened HeaderBlocks
  import M = HeaderMessages

  lemma {:induction false} ShortString(cb: Codebook, s: Str)
    requires |s| == 1
    ensures |EncString(cb, s, HuffAuto)| <= 2
  {
  }

  lemma {:induction false} ShortField(cb: Codebook, e: Encoder, hf: HeaderField)
    requires e.table.size < TWO32 && !e.sizeChanged && e.huffman == HuffAuto && |hf.name| == |hf.value| == 1
    requires Choose(cb, e, hf) == Literal(IndexedTrue, 0)
    ensures |EncField(cb, e, hf).1| <= 5
  {
    ShortString(cb, hf.name);
    ShortString(cb, hf.value);
    assert |EncInteger(Mask(IndexedTrue), PrefixLen(IndexedTrue), 0)| == 1;
  }

  /** A field whose name is in neither table is added to the table of a fresh encoder. */
  lemma {:induction false} NewNameAdded(cb: Codebook, hf: HeaderField)
    requires !hf.sensitive && SizeOf(Plain(hf)) <= 4096 && forall i :: 0 <= i < |cb.statics| ==> cb.statics[i].name != hf.name
    ensures Choose(cb, NewEncoder(4096), hf) == Literal(IndexedTrue, 0)
  {
    var t := NewEncoder(4096).table;
    FindSound(cb.statics, t, Plain(hf));
    assert AddressSpace(cb.statics, t) == cb.statics;
  }

  /** The key "a" with the value "1", and then a key that starts with a colon. */
  function Doomed(m: M.Msg): (o: M.Outgoing) {
    M.Outgoing(m, [], [Group([97], [[49]]), Group([COLON], [[50]])], 16384, 0)
  }

  lemma {:induction false} DoomedReaches(m: M.Msg)
    ensures M.Reached(Doomed(m)) == [HeaderField([97], [49], false)] && |M.Fields(Doomed(m))| == 2
    ensures FirstBad(Doomed(m).groups) == 1
  {
    var a, b := Group([97], [[49]]), Group([COLON], [[50]]);
    var groups := [a, b];
    assert groups[1..] == [b] && FirstBad([b]) == 0 && FirstBad(groups) == 1;
    assert groups[..1] == [a] && [a][1..] == [] && [b][1..] == [];
    assert a.values[1..] == [] && b.values[1..] == [];
    assert ValueFields(a.key, a.values) == [HeaderField([97], [49], false)];
    assert |ValueFields(b.key, b.values)| == 1 && AllFields([b]) == ValueFields(b.key, b.values) + [];
    assert AllFields([a]) == ValueFields(a.key, a.values) + [];
    assert AllFields([]) == [];
  }

  /** Nothing of it is written, it is reported as malformed, and the fresh encoder and decoder are no longer
      in step. */
  lemma {:induction false} DoomedDesyncs(cb: Codebook, m: M.Msg)
    requires M.ValidMsg(m) && forall i :: 0 <= i < |cb.statics| ==> cb.statics[i].name != [97]
    ensures var e, d, o := NewEncoder(4096), NewDecoder(4096), Doomed(m);
      && M.ValidOutgoing(o) && Synced(e, d)
      && var r := M.WriteMessage(cb, e, o); r.frags == [] && r.err == Some(Malformed) && !Synced(r.enc, d)
  {
    var e, d, o, hf := NewEncoder(4096), NewDecoder(4096), Doomed(m), HeaderField([97], [49], false);
    SyncedInit(4096);
    DoomedReaches(m);
    DoomedUnwritten(cb, m);
    NewNameAdded(cb, hf);
    assert M.Reached(o)[0] == hf && M.Reached(o)[1..] == [];
    assert SumSizes(M.Reached(o)) == SizeOf(Plain(hf)) + SumSizes([]);
    assert !Kept(cb, e, M.Reached(o)[0]);
    M.MalformedGivenUpIff(cb, e, d, o);
  }

  lemma {:induction false} DoomedUnwritten(cb: Codebook, m: M.Msg)
    requires M.ValidMsg(m) && forall i :: 0 <= i < |cb.statics| ==> cb.statics[i].name != [97]
    ensures var r := M.WriteMessage(cb, NewEncoder(4096), Doomed(m)); r.frags == [] && r.err == Some(Malformed)
  {
    var e, o, hf := NewEncoder(4096), Doomed(m), HeaderField([97], [49], false);
    var w := M.StartOf(e, o);
    DoomedReaches(m);
    NewNameAdded(cb, hf);
    ShortField(cb, e, hf);
    FinishedIsFirstBad(cb, M.LimitsOf(o), 0, w, o.groups);
    AbortMeaning(cb, M.LimitsOf(o), 0, w, o.groups);
    OnePartUnwritten(cb, M.LimitsOf(o), e, o.groups[..1], hf);
  }

  lemma {:induction false} OnePartUnwritten(cb: Codebook, l: Limits, e: Encoder, groups: seq<Group>, hf: HeaderField)
    requires ValidLimits(l) && e.table.size < TWO32 && |groups| == 1
    requires ValueFields(groups[0].key, groups[0].values) == [hf] && |groups[0].values| == 1
    requires |EncField(cb, e, hf).1| < l.max
    ensures Fragments(l, [], PartsOf(cb, e, groups), 2, true) == []
  {
    var parts := PartsOf(cb, e, groups);
    assert parts[1..] == [];
    assert [hf][1..] == [];
    var b := EncField(cb, e, hf).1;
    assert EncFields(cb, e, [hf]).1 == b + [] == b;
    assert parts[0] == Part(b, 1) && [] + b == b;
  }

  // ----- With the actual tables

  lemma {:induction false} LongNames(i: nat)
    requires i < 61
    ensures |StaticTable()[i].name| > 1
  {
    if i < 14 {
      assert StaticTable()[i] == PseudoEntries()[i];
      LongPseudo(i);
    } else if i < 38 {
      assert StaticTable()[i] == EntriesToH()[i - 14];
      LongToH(i - 14);
    } else {
      assert StaticTable()[i] == EntriesFromI()[i - 38];
      LongFromI(i - 38);
    }
  }

  lemma {:induction false} LongPseudo(i: nat)
    requires i < 14
    ensures |PseudoEntries()[i].name| > 1
  {
  }

  lemma {:induction false} LongToH(i: nat)
    requires i < 24
    ensures |EntriesToH()[i].name| > 1
  {
  }

  lemma {:induction false} LongFromI(i: nat)
    requires i < 23
    ensures |EntriesFromI()[i].name| > 1
  {
  }

  /** With the tables of RFC 7541: nothing is written, the header is reported as malformed, and the fresh
      encoder and decoder are no longer in step. */
  lemma {:induction false} MalformedDesyncs(cb: Codebook, m: M.Msg)
    requires cb == StandardBook() && M.ValidMsg(m)
    ensures var e, d, o := NewEncoder(4096), NewDecoder(4096), Doomed(m);
      && M.ValidOutgoing(o) && Synced(e, d)
      && var r := M.WriteMessage(cb, e, o); r.frags == [] && r.err == Some(Malformed) && !Synced(r.enc, d)
  {
    forall i | 0 <= i < |cb.statics| ensures cb.statics[i].name != [97] {
      LongNames(i);
    }
    DoomedDesyncs(cb, m);
  }
}
