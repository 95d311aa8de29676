/** build_case_variants: two contrasting German tax cases that share a
    business sector and a transaction type. Random draws are supplied: the
    sequences of taxpayer and tax-authority samples in the order they are
    drawn, the indices random.choice picks from the two pattern tables, and a
    function giving the text the k-th transaction-specific sample returns
    for a category. */
module Scenario {
  import opened Text

  /** A case dictionary as build_case_variants fills it. */
  datatype Case = Case(
    finalDecision: string,
    taxpayer: string,
    taxAuthority: string,
    businessSector: string,
    transactionType: string,
    lawState: string,
    econState: string,
    procState: string,
    applicableLaw: string,
    economicActivity: string,
    proceduralRequirement: string,
    description: string)

  /** A (law, econ, proc) state triple. */
  datatype States = States(law: string, econ: string, proc: string)

  /** Two elements satisfied, one deficient. */
  const AcceptPatterns: seq<States> := [
    States("clear", "sufficient", "deficient"),
    States("clear", "insufficient", "compliant"),
    States("unclear", "sufficient", "compliant")
  ]

  /** At most one element satisfied. */
  const RejectPatterns: seq<States> := [
    States("unclear", "insufficient", "compliant"),
    States("unclear", "insufficient", "deficient"),
    States("unclear", "sufficient", "deficient"),
    States("clear", "insufficient", "deficient")
  ]

  const AcceptDecision: string := "accept with conditions"
  const RejectDecision: string := "fully reject"

  /** Number of favourable states (clear / sufficient / compliant). */
  function Favourable(s: States): (n: nat)
    ensures n <= 3
    ensures n == 3 <==> s.law == "clear" && s.econ == "sufficient" && s.proc == "compliant"
    ensures n == 0 <==> s.law != "clear" && s.econ != "sufficient" && s.proc != "compliant"
  {
    (if s.law == "clear" then 1 else 0)
    + (if s.econ == "sufficient" then 1 else 0)
    + (if s.proc == "compliant" then 1 else 0)
  }

  function StatesOf(c: Case): States {
    States(c.lawState, c.econState, c.procState)
  }

  /** The case-1 patterns all have two favourable states and the case-2
      patterns at most one, so case 2 is always strictly worse. */
  lemma PatternsOrdered()
    ensures forall i :: 0 <= i < |AcceptPatterns| ==> Favourable(AcceptPatterns[i]) == 2
    ensures forall i :: 0 <= i < |RejectPatterns| ==> Favourable(RejectPatterns[i]) <= 1
    ensures forall i, j :: 0 <= i < |AcceptPatterns| && 0 <= j < |RejectPatterns|
              ==> Favourable(RejectPatterns[j]) < Favourable(AcceptPatterns[i])
  {
    assert Favourable(AcceptPatterns[0]) == 2 && Favourable(AcceptPatterns[1]) == 2
        && Favourable(AcceptPatterns[2]) == 2;
    assert Favourable(RejectPatterns[0]) == 1 && Favourable(RejectPatterns[1]) == 0
        && Favourable(RejectPatterns[2]) == 1 && Favourable(RejectPatterns[3]) == 1;
  }

  /** One reject pattern satisfies no element at all, although case 2 is
      described as "1 element satisfied". */
  lemma SomeRejectPatternSatisfiesNothing()
    ensures exists j :: 0 <= j < |RejectPatterns| && Favourable(RejectPatterns[j]) == 0
  {
    assert Favourable(RejectPatterns[1]) == 0;
  }

  /** The madlib categories sampled for a state triple. */
  function LawCategory(s: States): string { "applicable_laws_" + s.law }
  function EconCategory(s: States): string { "economic_activities_" + s.econ }
  function ProcCategory(s: States): string { "procedural_requirements_" + s.proc }

  /** The seven description lines, in their fixed order. */
  function DescriptionLines(taxpayer: string, sector: string, txType: string, law: string,
                            econ: string, proc: string, authority: string): (lines: seq<string>)
  {
    ["Taxpayer: " + taxpayer,
     "Business sector: " + sector,
     "Transaction type: " + txType,
     "Applicable law: " + law,
     "Economic activity: " + econ,
     "Procedural requirement: " + proc,
     "Tax authority: " + authority]
  }

  /** The description: the seven lines joined by newlines, then stripped. */
  function Description(taxpayer: string, sector: string, txType: string, law: string,
                       econ: string, proc: string, authority: string): string
  {
    Strip(Join(DescriptionLines(taxpayer, sector, txType, law, econ, proc, authority), '\n'))
  }

  /** Sample number `first`, `first + 1`, `first + 2` of the
      transaction-specific madlib give the law, economic and procedural texts. */
  function MakeCase(decision: string, taxpayer: string, authority: string, sector: string,
                    txType: string, s: States, txSample: (nat, string) -> string, first: nat): Case
  {
    var law := txSample(first, LawCategory(s));
    var econ := txSample(first + 1, EconCategory(s));
    var proc := txSample(first + 2, ProcCategory(s));
    Case(decision, taxpayer, authority, sector, txType, s.law, s.econ, s.proc, law, econ, proc,
         Description(taxpayer, sector, txType, law, econ, proc, authority))
  }

  /** The index of the first draw from `i` on that differs from draw 0:
      where the re-sampling loop stops. */
  function FirstOther(draws: seq<string>, i: nat): (j: nat)
    requires 1 <= i
    requires exists m :: i <= m < |draws| && draws[m] != draws[0]
    ensures i <= j < |draws| && draws[j] != draws[0]
    ensures forall m :: i <= m < j ==> draws[m] == draws[0]
    decreases |draws| - i
  {
    if draws[i] != draws[0] then i else FirstOther(draws, i + 1)
  }

  /** Both cases, with case 2's taxpayer and authority re-sampled until they
      differ from case 1's. The loops end only because a differing draw is
      assumed to exist. */
  method BuildCaseVariants(taxpayerDraws: seq<string>, authorityDraws: seq<string>,
                           acceptPick: nat, rejectPick: nat, txSample: (nat, string) -> string,
                           businessSector: string, txType: string)
    returns (cases: seq<Case>)
    requires exists m :: 1 <= m < |taxpayerDraws| && taxpayerDraws[m] != taxpayerDraws[0]
    requires exists m :: 1 <= m < |authorityDraws| && authorityDraws[m] != authorityDraws[0]
    requires acceptPick < |AcceptPatterns| && rejectPick < |RejectPatterns|
    ensures |cases| == 2
    ensures cases[0] == MakeCase(AcceptDecision, taxpayerDraws[0], authorityDraws[0], businessSector,
                                 txType, AcceptPatterns[acceptPick], txSample, 0)
    ensures cases[1] == MakeCase(RejectDecision, taxpayerDraws[FirstOther(taxpayerDraws, 1)],
                                 authorityDraws[FirstOther(authorityDraws, 1)], businessSector,
                                 txType, RejectPatterns[rejectPick], txSample, 3)
    ensures cases[0].taxpayer != cases[1].taxpayer
    ensures cases[0].taxAuthority != cases[1].taxAuthority
    ensures Favourable(StatesOf(cases[0])) == 2 && Favourable(StatesOf(cases[1])) <= 1
    ensures cases[0].finalDecision == AcceptDecision && cases[1].finalDecision == RejectDecision
    ensures forall i :: 0 <= i < 2 ==>
              cases[i].businessSector == businessSector && cases[i].transactionType == txType
  {
    var taxpayer1 := taxpayerDraws[0];
    var taxpayer2 := taxpayerDraws[1];
    var t := 2;
    while taxpayer2 == taxpayer1
      invariant 2 <= t <= |taxpayerDraws| && taxpayer2 == taxpayerDraws[t - 1]
      invariant forall m :: 1 <= m < t - 1 ==> taxpayerDraws[m] == taxpayer1
      decreases |taxpayerDraws| - t
    {
      taxpayer2 := taxpayerDraws[t];
      t := t + 1;
    }
    assert t - 1 == FirstOther(taxpayerDraws, 1);

    var authority1 := authorityDraws[0];
    var authority2 := authorityDraws[1];
    var a := 2;
    while authority2 == authority1
      invariant 2 <= a <= |authorityDraws| && authority2 == authorityDraws[a - 1]
      invariant forall m :: 1 <= m < a - 1 ==> authorityDraws[m] == authority1
      decreases |authorityDraws| - a
    {
      authority2 := authorityDraws[a];
      a := a + 1;
    }
    assert a - 1 == FirstOther(authorityDraws, 1);

    PatternsOrdered();
    var s1 := AcceptPatterns[acceptPick];
    var s2 := RejectPatterns[rejectPick];

    var case1 := Case(AcceptDecision, taxpayer1, authority1, businessSector, txType,
                      s1.law, s1.econ, s1.proc,
                      txSample(0, LawCategory(s1)), txSample(1, EconCategory(s1)),
                      txSample(2, ProcCategory(s1)), "");
    case1 := case1.(description := Description(taxpayer1, businessSector, txType, case1.applicableLaw,
                                               case1.economicActivity, case1.proceduralRequirement,
                                               authority1));

    var case2 := Case(RejectDecision, taxpayer2, authority2, businessSector, txType,
                      s2.law, s2.econ, s2.proc,
                      txSample(3, LawCategory(s2)), txSample(4, EconCategory(s2)),
                      txSample(5, ProcCategory(s2)), "");
    case2 := case2.(description := Description(taxpayer2, businessSector, txType, case2.applicableLaw,
                                               case2.economicActivity, case2.proceduralRequirement,
                                               authority2));

    cases := [case1, case2];
  }

  /** Trailing whitespace is trimmed from the end only. */
  lemma {:induction false} RStripAppend(x: string, y: string, k: nat)
    requires k < |y| && !IsSpace(y[k])
    ensures RStrip(x + y) == x + RStrip(y)
    decreases |y|
  {
    if IsSpace(y[|y| - 1]) {
      assert (x + y)[..|x + y| - 1] == x + y[..|y| - 1];
      RStripAppend(x, y[..|y| - 1], k);
    }
  }

  lemma {:induction false} JoinSnoc(parts: seq<string>, last: string, c: char)
    requires |parts| >= 1
    ensures Join(parts + [last], c) == Join(parts, c) + [c] + last
  {
    if |parts| > 1 {
      assert (parts + [last])[1..] == parts[1..] + [last];
      JoinSnoc(parts[1..], last, c);
    }
  }

  /** Stripping a newline-joined list whose first line starts, and whose
      last line holds, a non-space character only trims the last line. */
  lemma JoinedLinesSplit(lines: seq<string>)
    requires |lines| >= 2 && lines[0] != [] && !IsSpace(lines[0][0])
    requires lines[|lines| - 1] != [] && !IsSpace(lines[|lines| - 1][0])
    requires forall k :: 0 <= k < |lines| ==> '\n' !in lines[k]
    ensures Split(Strip(Join(lines, '\n')), '\n')
              == lines[..|lines| - 1] + [RStrip(lines[|lines| - 1])]
  {
    var n := |lines| - 1;
    var head := lines[..n];
    assert lines == head + [lines[n]];
    JoinSnoc(head, lines[n], '\n');
    var joined := Join(lines, '\n');
    assert joined[0] == lines[0][0];
    assert LStrip(joined) == joined;
    RStripAppend(Join(head, '\n') + ['\n'], lines[n], 0);
    JoinSnoc(head, RStrip(lines[n]), '\n');
    var parts := head + [RStrip(lines[n])];
    RStripKeeps(lines[n], '\n');
    assert forall k :: 0 <= k < |parts| ==> '\n' !in parts[k];
    SplitJoin(parts, '\n');
  }

  /** When no field holds a newline, the description splits back into its
      seven lines; only the last loses its trailing whitespace. */
  lemma DescriptionSevenLines(taxpayer: string, sector: string, txType: string, law: string,
                              econ: string, proc: string, authority: string)
    requires '\n' !in taxpayer && '\n' !in sector && '\n' !in txType && '\n' !in law
    requires '\n' !in econ && '\n' !in proc && '\n' !in authority
    ensures var lines := DescriptionLines(taxpayer, sector, txType, law, econ, proc, authority);
            Split(Description(taxpayer, sector, txType, law, econ, proc, authority), '\n')
              == lines[..6] + [RStrip(lines[6])]
  {
    var lines := DescriptionLines(taxpayer, sector, txType, law, econ, proc, authority);
    assert forall k :: 0 <= k < |lines| ==> '\n' !in lines[k];
    JoinedLinesSplit(lines);
  }
}
