/** The capacity formula and the tables of the encoder agree with the tables of the standard. */
module StandardTables {
  import opened Standard
  import opened Versions
  import opened FunctionPatterns

  function LevelOf(e: Ecc): Level {
    match e
    case Low => L
    case Medium => M
    case Quartile => Q
    case High => H
  }

  // ----- tables

  /** The number of codewords of a symbol. */
  lemma TotalsAgree(version: nat)
    requires IsVersion(version)
    ensures NumRawDataModules(version) / 8 == TotalCodewords(version)
  {
  }

  predicate BlocksAgree(version: nat)
    requires IsVersion(version)
  {
    var b, r := TableEntry(version).blocks, BlockTable(version);
    b.low == r.l && b.medium == r.m && b.quartile == r.q && b.high == r.h
  }

  lemma BlocksFrom(version: nat, first: nat)
    requires IsVersion(version) && first <= version < first + 10 && first % 10 == 1
    ensures BlocksAgree(version)
  {
  }

  /** What the table of the encoder leaves for data. */
  predicate DataAgrees(version: nat)
    requires IsVersion(version)
  {
    var total, t, d := TotalCodewords(version), TableEntry(version), DataTable(version);
    && total == d.l + t.ecc.low * t.blocks.low == d.m + t.ecc.medium * t.blocks.medium
    && total == d.q + t.ecc.quartile * t.blocks.quartile == d.h + t.ecc.high * t.blocks.high
  }

  lemma DataFrom1()
    ensures DataAgrees(1) && DataAgrees(2) && DataAgrees(3) && DataAgrees(4) && DataAgrees(5)
  {
  }

  lemma DataFrom6()
    ensures DataAgrees(6) && DataAgrees(7) && DataAgrees(8) && DataAgrees(9) && DataAgrees(10)
  {
  }

  lemma DataFrom11()
    ensures DataAgrees(11) && DataAgrees(12) && DataAgrees(13) && DataAgrees(14) && DataAgrees(15)
  {
  }

  lemma DataFrom16()
    ensures DataAgrees(16) && DataAgrees(17) && DataAgrees(18) && DataAgrees(19) && DataAgrees(20)
  {
  }

  lemma DataFrom21()
    ensures DataAgrees(21) && DataAgrees(22) && DataAgrees(23) && DataAgrees(24) && DataAgrees(25)
  {
  }

  lemma DataFrom26()
    ensures DataAgrees(26) && DataAgrees(27) && DataAgrees(28) && DataAgrees(29) && DataAgrees(30)
  {
  }

  lemma DataFrom31()
    ensures DataAgrees(31) && DataAgrees(32) && DataAgrees(33) && DataAgrees(34) && DataAgrees(35)
  {
  }

  lemma DataFrom36()
    ensures DataAgrees(36) && DataAgrees(37) && DataAgrees(38) && DataAgrees(39) && DataAgrees(40)
  {
  }

  lemma DataOf(version: nat)
    requires 1 <= version <= 40
    ensures DataAgrees(version)
  {
    hide *;
    DataFrom1(); DataFrom6(); DataFrom11(); DataFrom16(); DataFrom21(); DataFrom26(); DataFrom31(); DataFrom36();
  }

  lemma Quotient(a: nat, b: nat)
    requires b >= 1
    ensures a * b / b == a
  {
    var q := a * b / b;
    if q < a { MulMonotone(q + 1, a, b); }
  }

  /** The capacity formula and both tables of the encoder give the codewords of the standard. */
  lemma TablesAgree(version: nat, e: Ecc)
    requires IsVersion(version)
    ensures NumRawDataModules(version) / 8 == TotalCodewords(version)
    ensures NumDataCodewords(version, e) == DataCodewords(version, LevelOf(e))
    ensures NumBlocks(version, e) == BlockCount(version, LevelOf(e))
    ensures EccPerBlock(version, e) == CheckCodewords(version, LevelOf(e))
  {
    hide TableEntry, DataTable, BlockTable, TotalCodewords, NumRawDataModules;
    Quotient(EccPerBlock(version, e), BlockCount(version, LevelOf(e)));
    TotalsAgree(version);
    BlocksFrom(version, (version - 1) / 10 * 10 + 1);
    DataOf(version);
  }

  // ----- function modules

  predicate Gap(c: seq<nat>, k: nat, step: nat) { k + 1 < |c| ==> c[k + 1] == c[k] + step }

  /** From the second one on, the centres of annex E are one step of the encoder apart. */
  predicate CentresAgree(version: nat)
    requires 2 <= version <= 40
  {
    var c, step := Centres(version), AlignStep(version);
    && |c| == AlignCount(version) && 2 <= |c| <= 7 && c[0] == 6 && c[|c| - 1] == SizeOf(version) - 7
    && Gap(c, 1, step) && Gap(c, 2, step) && Gap(c, 3, step) && Gap(c, 4, step) && Gap(c, 5, step)
  }

  lemma CentresFrom2()
    ensures CentresAgree(2) && CentresAgree(3) && CentresAgree(4)
  {
  }

  lemma CentresFrom5()
    ensures CentresAgree(5) && CentresAgree(6) && CentresAgree(7)
  {
  }

  lemma CentresFrom8()
    ensures CentresAgree(8) && CentresAgree(9) && CentresAgree(10)
  {
  }

  lemma CentresFrom11()
    ensures CentresAgree(11) && CentresAgree(12) && CentresAgree(13)
  {
  }

  lemma CentresFrom14()
    ensures CentresAgree(14) && CentresAgree(15) && CentresAgree(16)
  {
  }

  lemma CentresFrom17()
    ensures CentresAgree(17) && CentresAgree(18) && CentresAgree(19)
  {
  }

  lemma CentresFrom20()
    ensures CentresAgree(20) && CentresAgree(21) && CentresAgree(22)
  {
  }

  lemma CentresFrom23()
    ensures CentresAgree(23) && CentresAgree(24) && CentresAgree(25)
  {
  }

  lemma CentresFrom26()
    ensures CentresAgree(26) && CentresAgree(27) && CentresAgree(28)
  {
  }

  lemma CentresFrom29()
    ensures CentresAgree(29) && CentresAgree(30) && CentresAgree(31)
  {
  }

  lemma CentresFrom32()
    ensures CentresAgree(32) && CentresAgree(33) && CentresAgree(34)
  {
  }

  lemma CentresFrom35()
    ensures CentresAgree(35) && CentresAgree(36) && CentresAgree(37)
  {
  }

  lemma CentresFrom38()
    ensures CentresAgree(38) && CentresAgree(39) && CentresAgree(40)
  {
  }

  lemma CentresOf(version: nat)
    requires 2 <= version <= 40
    ensures CentresAgree(version)
  {
    hide *;
    CentresFrom2(); CentresFrom5(); CentresFrom8(); CentresFrom11(); CentresFrom14();
    CentresFrom17(); CentresFrom20(); CentresFrom23(); CentresFrom26(); CentresFrom29();
    CentresFrom32(); CentresFrom35(); CentresFrom38();
  }

  /** The computed positions of the alignment patterns are those of annex E. */
  lemma {:induction false} CentreIs(version: nat, k: nat)
    requires 2 <= version <= 40 && k < AlignCount(version)
    ensures |Centres(version)| == AlignCount(version) && Centres(version)[k] == AlignAt(version, k)
    decreases AlignCount(version) - k
  {
    hide Centres, AlignStep, AlignCount;
    CentresOf(version);
    if 0 < k < AlignCount(version) - 1 {
      CentreIs(version, k + 1);
      assert Gap(Centres(version), k, AlignStep(version));
    }
  }
}
