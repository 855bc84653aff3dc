/** Equal names stand together in the static table: every name has a rank, and ranks do not fall. */
module StaticNames {
  import opened Bits
  import opened HeaderTable
  import opened HeaderIndex
  import opened HpackStatic

  function At(n: Str, p: nat): (b: nat) {
    if p < |n| then n[p] else 0
  }

  /** Length and three bytes tell the names of the table apart. */
  function Signature(n: Str): (s: nat) {
    |n| + 100 * At(n, 0) + 30000 * At(n, 3) + 10000000 * At(n, 9)
  }

  /** The place of a name among the different names of the table, by its signature. */
  function RankOf(s: nat): (r: nat) {
    if s < 973310513 then if s < 3220804 then if s < 3040106 then if s < 2920808 then if s < 11803 then 11
            else if s < 2915807 then 50
              else 4
          else if s < 3039706 then 36
            else if s < 3040004 then 9
              else 23
        else if s < 3101405 then if s < 3041407 then 25
            else if s < 3100104 then 41
              else 24
          else if s < 3160107 then if s < 3125807 then 40
              else 3
            else if s < 3219906 then 26
              else 22
      else if s < 3485805 then if s < 3339705 then if s < 3280204 then 35
            else if s < 3280508 then 27
              else 29
          else if s < 3430508 then 12
            else if s < 3431407 then 32
              else 42
        else if s < 3551506 then if s < 3485807 then 2
            else if s < 3490404 then 1
              else 28
          else if s < 973039714 then if s < 3641804 then 44
              else 49
            else if s < 973161525 then 5
              else 46
    else if s < 1053489919 then if s < 1013311617 then if s < 993039715 then if s < 973489913 then 31
            else if s < 973489916 then 20
              else 17
          else if s < 1011361510 then 6
            else if s < 1013280517 then 45
              else 30
        else if s < 1023490813 then if s < 1013431411 then 47
            else if s < 1013489914 then 43
              else 18
          else if s < 1043611218 then if s < 1023520519 then 34
              else 33
            else if s < 1043611219 then 38
              else 39
      else if s < 1113489916 then if s < 1103039715 then if s < 1101361916 then 15
            else if s < 1103039713 then 51
              else 8
          else if s < 1103039727 then 7
            else if s < 1103489916 then 10
              else 16
        else if s < 1163129913 then if s < 1141360912 then 19
            else if s < 1163129713 then 37
              else 13
          else if s < 1213485810 then if s < 1163431710 then 14
              else 48
            else if s < 1213489912 then 0
              else 21
  }

  /** The same, by the place of an entry. */
  function RankAt(i: nat): (r: nat) {
    if i < 1 then 0 else if i < 3 then 1 else if i < 5 then 2 else if i < 7 then 3 else if i < 14 then 4 else i - 9
  }

  predicate Ranked(i: nat)
    requires i < 61
  {
    RankOf(Signature(StaticTable()[i].name)) == RankAt(i)
  }

  lemma {:induction false} PseudoRanks(j: nat)
    requires 0 <= j < 14
    ensures RankOf(Signature(PseudoEntries()[j].name)) == RankAt(j)
  {
  }

  lemma {:induction false} FirstRanks0(j: nat)
    requires 0 <= j < 3
    ensures RankOf(Signature(EntriesToH()[j].name)) == RankAt(j + 14)
  {
  }

  lemma {:induction false} FirstRanks(j: nat)
    requires 3 <= j < 6
    ensures RankOf(Signature(EntriesToH()[j].name)) == RankAt(j + 14)
  {
  }

  lemma {:induction false} FirstRanks1(j: nat)
    requires 6 <= j < 12
    ensures RankOf(Signature(EntriesToH()[j].name)) == RankAt(j + 14)
  {
  }

  lemma {:induction false} FirstRanks2(j: nat)
    requires 12 <= j < 18
    ensures RankOf(Signature(EntriesToH()[j].name)) == RankAt(j + 14)
  {
  }

  lemma {:induction false} FirstRanks3(j: nat)
    requires 18 <= j < 24
    ensures RankOf(Signature(EntriesToH()[j].name)) == RankAt(j + 14)
  {
  }

  lemma {:induction false} LastRanks0(j: nat)
    requires 0 <= j < 6
    ensures RankOf(Signature(EntriesFromI()[j].name)) == RankAt(j + 38)
  {
  }

  lemma {:induction false} LastRanks1(j: nat)
    requires 6 <= j < 12
    ensures RankOf(Signature(EntriesFromI()[j].name)) == RankAt(j + 38)
  {
  }

  lemma {:induction false} LastRanks2(j: nat)
    requires 12 <= j < 18
    ensures RankOf(Signature(EntriesFromI()[j].name)) == RankAt(j + 38)
  {
  }

  lemma {:induction false} LastRanks3(j: nat)
    requires 18 <= j < 23
    ensures RankOf(Signature(EntriesFromI()[j].name)) == RankAt(j + 38)
  {
  }

  /** Each entry has the rank of its name. */
  lemma {:induction false} Ranks(i: nat)
    requires i < 61
    ensures Ranked(i)
  {
    if i < 14 {
      assert StaticTable()[i] == PseudoEntries()[i];
      PseudoRanks(i);
    } else if i < 38 {
      var j := i - 14;
      assert StaticTable()[i] == EntriesToH()[j];
      if j < 3 { FirstRanks0(j); } else if j < 6 { FirstRanks(j); } else if j < 12 { FirstRanks1(j); } else if j < 18 { FirstRanks2(j); } else { FirstRanks3(j); }
    } else {
      var j := i - 38;
      assert StaticTable()[i] == EntriesFromI()[j];
      if j < 6 { LastRanks0(j); } else if j < 12 { LastRanks1(j); } else if j < 18 { LastRanks2(j); } else { LastRanks3(j); }
    }
  }

  function PseudoName(r: nat): (n: string) {
    if r == 0 then ":authority" else if r == 1 then ":method" else if r == 2 then ":path"
    else if r == 3 then ":scheme" else ":status"
  }

  lemma {:induction false} PseudoNames(i: nat)
    requires i < 14
    ensures StaticTable()[i].name == Bytes(PseudoName(RankAt(i)))
  {
    assert StaticTable()[i] == PseudoEntries()[i];
  }

  /** Entries of the same rank have the same name. */
  lemma {:induction false} SameRank(i: nat, j: nat)
    requires i < 61 && j < 61 && RankAt(i) == RankAt(j)
    ensures StaticTable()[i].name == StaticTable()[j].name
  {
    if i < 14 {
      PseudoNames(i);
      PseudoNames(j);
    }
  }

  /** The static table is grouped by names, so that the lookup finds every field in it. */
  lemma {:induction false} StaticTableGrouped()
    ensures Grouped(StaticTable())
  {
    var s := StaticTable();
    forall i, j, k | 0 <= i < j < k < |s| && s[i].name == s[k].name ensures s[j].name == s[k].name {
      Ranks(i);
      Ranks(k);
      Between(i, j, k);
      SameRank(j, k);
    }
  }

  lemma {:induction false} Between(i: nat, j: nat, k: nat)
    requires i < j < k && RankAt(i) == RankAt(k)
    ensures RankAt(j) == RankAt(k)
  {
  }

  /** Every field of the static or the dynamic table is found. */
  lemma {:induction false} StandardFindComplete(t: Table, f: Field, k: nat)
    requires k < |AddressSpace(StaticTable(), t)| && AddressSpace(StaticTable(), t)[k] == f
    ensures Find(StaticTable(), t, f).matched
  {
    StaticTableGrouped();
    FindComplete(StaticTable(), t, f, k);
  }
}
