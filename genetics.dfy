/** The genotype bookkeeping of LosslessGeneticAVL: mother-father pairs, the
    `MF_n` entries of the genotype tree, the Hamming distance used as balance
    factor, and the diamond scan over pairs sharing genetic material. */
module GeneticAVL {

  type Genome = string

  /** MF_Pair(mother_genotype, father_genotype, child_phenotype). */
  datatype MFPair = MFPair(motherGenotype: Genome, fatherGenotype: Genome, childPhenotype: seq<string>)

  /** The `{'mother': ..., 'father': ...}` dictionary stored in a tree entry. */
  datatype Genotype = Genotype(mother: Genome, father: Genome)

  /** GeneticNode(genotype, phenotype, balance_factor). */
  datatype GeneticNode = GeneticNode(genotype: Genotype, phenotype: seq<string>, balanceFactor: nat)

  // ---------------------------------------------------------------------
  // Hamming distance
  // ---------------------------------------------------------------------

  function Min(a: nat, b: nat): nat
  {
    if a <= b then a else b
  }

  /** calculate_genetic_distance: mismatches over the zipped (common) prefix. */
  function GeneticDistance(g1: Genome, g2: Genome): (d: nat)
    ensures d <= |g1| && d <= |g2|
  {
    if g1 == [] || g2 == [] then 0
    else (if g1[0] != g2[0] then 1 else 0) + GeneticDistance(g1[1..], g2[1..])
  }

  lemma {:induction false} DistanceSymmetric(g1: Genome, g2: Genome)
    ensures GeneticDistance(g1, g2) == GeneticDistance(g2, g1)
  {
    if g1 != [] && g2 != [] {
      DistanceSymmetric(g1[1..], g2[1..]);
    }
  }

  /** The distance is zero exactly when the strings agree on their common prefix. */
  lemma {:induction false} DistanceZeroIff(g1: Genome, g2: Genome)
    ensures GeneticDistance(g1, g2) == 0 <==> forall i :: 0 <= i < Min(|g1|, |g2|) ==> g1[i] == g2[i]
  {
    if g1 != [] && g2 != [] {
      var t1, t2 := g1[1..], g2[1..];
      DistanceZeroIff(t1, t2);
      if GeneticDistance(g1, g2) == 0 {
        forall i | 0 <= i < Min(|g1|, |g2|) ensures g1[i] == g2[i] {
          if i > 0 {
            assert g1[i] == t1[i - 1] && g2[i] == t2[i - 1];
          }
        }
      }
      if forall i :: 0 <= i < Min(|g1|, |g2|) ==> g1[i] == g2[i] {
        forall i | 0 <= i < Min(|t1|, |t2|) ensures t1[i] == t2[i] {
          assert t1[i] == g1[i + 1] && t2[i] == g2[i + 1];
        }
      }
    }
  }

  /** The distance reaches the shorter length exactly when every zipped position differs. */
  lemma {:induction false} DistanceFullIff(g1: Genome, g2: Genome)
    ensures GeneticDistance(g1, g2) == Min(|g1|, |g2|) <==> forall i :: 0 <= i < Min(|g1|, |g2|) ==> g1[i] != g2[i]
  {
    if g1 != [] && g2 != [] {
      var t1, t2 := g1[1..], g2[1..];
      DistanceFullIff(t1, t2);
      if GeneticDistance(g1, g2) == Min(|g1|, |g2|) {
        forall i | 0 <= i < Min(|g1|, |g2|) ensures g1[i] != g2[i] {
          if i > 0 {
            assert g1[i] == t1[i - 1] && g2[i] == t2[i - 1];
          }
        }
      }
      if forall i :: 0 <= i < Min(|g1|, |g2|) ==> g1[i] != g2[i] {
        forall i | 0 <= i < Min(|t1|, |t2|) ensures t1[i] != t2[i] {
          assert t1[i] == g1[i + 1] && t2[i] == g2[i + 1];
        }
      }
    }
  }

  lemma IdenticalDistanceZero(g: Genome)
    ensures GeneticDistance(g, g) == 0
  {
    DistanceZeroIff(g, g);
  }

  // ---------------------------------------------------------------------
  // Node ids `MF_n`
  // ---------------------------------------------------------------------

  function Digit(d: nat): char
    requires d < 10
  {
    "0123456789"[d]
  }

  /** The decimal numeral of n, as an f-string writes it. */
  function Decimal(n: nat): (s: string)
    ensures |s| >= 1
    ensures |s| == 1 <==> n < 10
  {
    if n < 10 then [Digit(n)] else Decimal(n / 10) + [Digit(n % 10)]
  }

  lemma {:induction false} DecimalInjective(a: nat, b: nat)
    ensures Decimal(a) == Decimal(b) <==> a == b
  {
    if Decimal(a) == Decimal(b) {
      var s := Decimal(a);
      if a < 10 {
        assert Digit(a) == s[0] == Digit(b);
      } else {
        assert s[..|s| - 1] == Decimal(a / 10) == Decimal(b / 10);
        assert Digit(a % 10) == s[|s| - 1] == Digit(b % 10);
        DecimalInjective(a / 10, b / 10);
      }
    }
  }

  /** f"MF_{n}" */
  function NodeId(n: nat): string
  {
    "MF_" + Decimal(n)
  }

  lemma NodeIdInjective(a: nat, b: nat)
    ensures NodeId(a) == NodeId(b) <==> a == b
  {
    DecimalInjective(a, b);
    if NodeId(a) == NodeId(b) {
      assert Decimal(a) == NodeId(a)[3..] == NodeId(b)[3..] == Decimal(b);
    }
  }

  // ---------------------------------------------------------------------
  // Shared genetic material
  // ---------------------------------------------------------------------

  /** set(genotype): the characters of a genotype string. */
  function Chars(g: Genome): set<char>
  {
    if g == [] then {} else {g[0]} + Chars(g[1..])
  }

  lemma {:induction false} CharsMembers(g: Genome)
    ensures forall c :: c in Chars(g) <==> c in g
  {
    if g != [] {
      CharsMembers(g[1..]);
      assert g == [g[0]] + g[1..];
    }
  }

  /** share_genetic_material: `(mothers' common characters) or (fathers' common
      characters)` is non-empty. */
  function ShareGeneticMaterial(p1: MFPair, p2: MFPair): bool
  {
    var mothers := Chars(p1.motherGenotype) * Chars(p2.motherGenotype);
    var fathers := Chars(p1.fatherGenotype) * Chars(p2.fatherGenotype);
    var sharedGenes := if mothers != {} then mothers else fathers;  // Python's `or` on sets
    sharedGenes != {}  // len(shared_genes) > 0
  }

  /** Two pairs share genetic material exactly when some character occurs in
      both mothers' genotypes or some character occurs in both fathers'. */
  lemma ShareIff(p1: MFPair, p2: MFPair)
    ensures ShareGeneticMaterial(p1, p2) <==>
      (exists i, j :: 0 <= i < |p1.motherGenotype| && 0 <= j < |p2.motherGenotype| &&
                      p1.motherGenotype[i] == p2.motherGenotype[j]) ||
      (exists i, j :: 0 <= i < |p1.fatherGenotype| && 0 <= j < |p2.fatherGenotype| &&
                      p1.fatherGenotype[i] == p2.fatherGenotype[j])
  {
    CommonChar(p1.motherGenotype, p2.motherGenotype);
    CommonChar(p1.fatherGenotype, p2.fatherGenotype);
  }

  lemma CommonChar(g1: Genome, g2: Genome)
    ensures Chars(g1) * Chars(g2) != {} <==>
      exists i, j :: 0 <= i < |g1| && 0 <= j < |g2| && g1[i] == g2[j]
  {
    CharsMembers(g1);
    CharsMembers(g2);
    if Chars(g1) * Chars(g2) != {} {
      var c :| c in Chars(g1) * Chars(g2);
      var i :| 0 <= i < |g1| && g1[i] == c;
      var j :| 0 <= j < |g2| && g2[j] == c;
    }
    if exists i, j :: 0 <= i < |g1| && 0 <= j < |g2| && g1[i] == g2[j] {
      var i, j :| 0 <= i < |g1| && 0 <= j < |g2| && g1[i] == g2[j];
      assert g1[i] in Chars(g1) * Chars(g2);
    }
  }

  lemma ShareSymmetric(p1: MFPair, p2: MFPair)
    ensures ShareGeneticMaterial(p1, p2) == ShareGeneticMaterial(p2, p1)
  {
    assert Chars(p1.motherGenotype) * Chars(p2.motherGenotype) == Chars(p2.motherGenotype) * Chars(p1.motherGenotype);
    assert Chars(p1.fatherGenotype) * Chars(p2.fatherGenotype) == Chars(p2.fatherGenotype) * Chars(p1.fatherGenotype);
  }

  // ---------------------------------------------------------------------
  // Diamond scan
  // ---------------------------------------------------------------------

  /** The 1-based pair (i, j), i < j, is a diamond of `pairs`: both are
      recorded pairs and they share genetic material. */
  predicate IsDiamond(pairs: seq<MFPair>, ij: (nat, nat))
  {
    1 <= ij.0 < ij.1 <= |pairs| && ShareGeneticMaterial(pairs[ij.0 - 1], pairs[ij.1 - 1])
  }

  /** The diamonds (a, a + 1), ..., (a, b - 1) that the inner loop has found
      in row a once it reaches column b. */
  function RowUpTo(pairs: seq<MFPair>, a: nat, b: nat): seq<(nat, nat)>
    requires 1 <= a < b <= |pairs| + 1
    decreases b
  {
    if b == a + 1 then []
    else RowUpTo(pairs, a, b - 1) + (if ShareGeneticMaterial(pairs[a - 1], pairs[b - 2]) then [(a, b - 1)] else [])
  }

  /** The diamonds found in rows 1, ..., a - 1. */
  function RowsUpTo(pairs: seq<MFPair>, a: nat): seq<(nat, nat)>
    requires 1 <= a <= |pairs| + 1
    decreases a
  {
    if a == 1 then [] else RowsUpTo(pairs, a - 1) + RowUpTo(pairs, a - 1, |pairs| + 1)
  }

  /** The diamond list in the order the nested loops find it (1-based indices). */
  function Diamonds(pairs: seq<MFPair>): seq<(nat, nat)>
  {
    RowsUpTo(pairs, |pairs| + 1)
  }

  /** (a, b) comes strictly before (c, d) in the order the nested loops visit pairs. */
  predicate Before(p: (nat, nat), q: (nat, nat))
  {
    p.0 < q.0 || (p.0 == q.0 && p.1 < q.1)
  }

  predicate InScanOrder(found: seq<(nat, nat)>)
  {
    forall k, l :: 0 <= k < l < |found| ==> Before(found[k], found[l])
  }

  lemma {:induction false} RowUpToMembers(pairs: seq<MFPair>, a: nat, b: nat)
    requires 1 <= a < b <= |pairs| + 1
    ensures forall p :: p in RowUpTo(pairs, a, b) <==> p.0 == a && p.1 < b && IsDiamond(pairs, p)
    decreases b
  {
    if b > a + 1 {
      RowUpToMembers(pairs, a, b - 1);
    }
  }

  lemma {:induction false} RowUpToOrdered(pairs: seq<MFPair>, a: nat, b: nat)
    requires 1 <= a < b <= |pairs| + 1
    ensures InScanOrder(RowUpTo(pairs, a, b))
    decreases b
  {
    if b > a + 1 {
      var earlier := RowUpTo(pairs, a, b - 1);
      var last := if ShareGeneticMaterial(pairs[a - 1], pairs[b - 2]) then [(a, b - 1)] else [];
      RowUpToOrdered(pairs, a, b - 1);
      forall p, q | p in earlier && q in last ensures Before(p, q) {
        RowUpToMembers(pairs, a, b - 1);
      }
      OrderedConcat(earlier, last);
    }
  }

  lemma {:induction false} RowsUpToMembers(pairs: seq<MFPair>, a: nat)
    requires 1 <= a <= |pairs| + 1
    ensures forall p :: p in RowsUpTo(pairs, a) <==> p.0 < a && IsDiamond(pairs, p)
    decreases a
  {
    if a > 1 {
      RowsUpToMembers(pairs, a - 1);
      RowUpToMembers(pairs, a - 1, |pairs| + 1);
    }
  }

  lemma {:induction false} RowsUpToOrdered(pairs: seq<MFPair>, a: nat)
    requires 1 <= a <= |pairs| + 1
    ensures InScanOrder(RowsUpTo(pairs, a))
    decreases a
  {
    if a > 1 {
      var earlier, row := RowsUpTo(pairs, a - 1), RowUpTo(pairs, a - 1, |pairs| + 1);
      RowsUpToOrdered(pairs, a - 1);
      RowUpToOrdered(pairs, a - 1, |pairs| + 1);
      forall p, q | p in earlier && q in row ensures Before(p, q) {
        RowsUpToMembers(pairs, a - 1);
        RowUpToMembers(pairs, a - 1, |pairs| + 1);
      }
      OrderedConcat(earlier, row);
    }
  }

  lemma OrderedConcat(xs: seq<(nat, nat)>, ys: seq<(nat, nat)>)
    requires InScanOrder(xs) && InScanOrder(ys)
    requires forall p, q :: p in xs && q in ys ==> Before(p, q)
    ensures InScanOrder(xs + ys)
  {
    var zs := xs + ys;
    forall k, l | 0 <= k < l < |zs| ensures Before(zs[k], zs[l]) {
      if l < |xs| {
        assert zs[k] == xs[k] && zs[l] == xs[l];
      } else if k >= |xs| {
        assert zs[k] == ys[k - |xs|] && zs[l] == ys[l - |xs|];
      } else {
        assert zs[k] in xs && zs[l] in ys;
      }
    }
  }

  /** find_diamond_dependencies reports exactly the pairs (i, j), 1 <= i < j <= n,
      that share genetic material, each once, in increasing (i, j) order. */
  lemma DiamondsExact(pairs: seq<MFPair>)
    ensures forall p :: p in Diamonds(pairs) <==> IsDiamond(pairs, p)
    ensures InScanOrder(Diamonds(pairs))
  {
    RowsUpToMembers(pairs, |pairs| + 1);
    RowsUpToOrdered(pairs, |pairs| + 1);
  }

  /** The `(MF_i, MF_j)` labels of 1-based index pairs. */
  function Labels(found: seq<(nat, nat)>): seq<(string, string)>
  {
    if found == [] then [] else [(NodeId(found[0].0), NodeId(found[0].1))] + Labels(found[1..])
  }


  /** The tree entry add_mf_pair writes for a pair. */
  function EntryFor(p: MFPair): GeneticNode
  {
    GeneticNode(Genotype(p.motherGenotype, p.fatherGenotype), p.childPhenotype,
                GeneticDistance(p.motherGenotype, p.fatherGenotype))
  }

  class LosslessGeneticAVL {
    var genotypeTree: map<string, GeneticNode>
    var mfPairs: seq<MFPair>

    /** The tree holds exactly the entries `MF_1` .. `MF_n`, one per recorded pair. */
    ghost predicate Valid()
      reads this
    {
      TreeMatchesPairs(genotypeTree, mfPairs)
    }

    constructor ()
      ensures genotypeTree == map[] && mfPairs == []
      ensures Valid()
    {
      genotypeTree := map[];
      mfPairs := [];
    }

    /** add_mf_pair: records the pair and files its entry under a new key `MF_n`. */
    method AddMFPair(mother: Genome, father: Genome, child: seq<string>) returns (nodeId: string)
      requires Valid()
      modifies this
      ensures Valid()
      ensures mfPairs == old(mfPairs) + [MFPair(mother, father, child)]
      ensures nodeId == NodeId(|mfPairs|)
      ensures nodeId !in old(genotypeTree)
      ensures genotypeTree == old(genotypeTree)[nodeId := GeneticNode(Genotype(mother, father), child,
                                                                      GeneticDistance(mother, father))]
    {
      var pair := MFPair(mother, father, child);
      AddKeepsMatch(genotypeTree, mfPairs, pair);
      mfPairs := mfPairs + [pair];
      var geneticDistance := GeneticDistance(mother, father);
      nodeId := NodeId(|mfPairs|);
      genotypeTree := genotypeTree[nodeId := GeneticNode(Genotype(mother, father), child, geneticDistance)];
    }

    /** find_diamond_dependencies: the labels `(MF_i, MF_j)` of the diamonds,
        in the order the nested loops visit them. */
    method FindDiamondDependencies() returns (diamonds: seq<(string, string)>)
      ensures diamonds == Labels(Diamonds(mfPairs))
    {
      diamonds := [];
      var i: nat := 0;
      while i < |mfPairs|
        invariant i <= |mfPairs|
        invariant diamonds == Labels(RowsUpTo(mfPairs, i + 1))
      {
        var row := ScanRow(mfPairs, i);
        RowsStep(mfPairs, i);
        diamonds := diamonds + row;
        i := i + 1;
      }
    }
  }

  /** The inner loop of find_diamond_dependencies for the 0-based row i: the
      labels of the diamonds (i + 1, j + 1), j = i + 1 .. n - 1, in order. */
  method ScanRow(pairs: seq<MFPair>, i: nat) returns (row: seq<(string, string)>)
    requires i < |pairs|
    ensures row == Labels(RowUpTo(pairs, i + 1, |pairs| + 1))
  {
    row := [];
    var j: nat := i + 1;
    while j < |pairs|
      invariant i + 1 <= j <= |pairs|
      invariant row == Labels(RowUpTo(pairs, i + 1, j + 1))
    {
      RowStep(pairs, i, j);
      if ShareGeneticMaterial(pairs[i], pairs[j]) {
        row := row + [(NodeId(i + 1), NodeId(j + 1))];
      }
      j := j + 1;
    }
  }

  lemma {:induction false} LabelsConcat(xs: seq<(nat, nat)>, ys: seq<(nat, nat)>)
    ensures Labels(xs + ys) == Labels(xs) + Labels(ys)
    decreases |xs|
  {
    if xs != [] {
      var head := [(NodeId(xs[0].0), NodeId(xs[0].1))];
      assert (xs + ys)[0] == xs[0];
      assert (xs + ys)[1..] == xs[1..] + ys;
      LabelsConcat(xs[1..], ys);
      calc {
        Labels(xs + ys);
        head + Labels(xs[1..] + ys);
        head + (Labels(xs[1..]) + Labels(ys));
        (head + Labels(xs[1..])) + Labels(ys);
        Labels(xs) + Labels(ys);
      }
    } else {
      assert xs + ys == ys;
    }
  }

  /** One step of the outer loop, at 0-based row i, appends the labels of
      that row's diamonds. */
  lemma RowsStep(pairs: seq<MFPair>, i: nat)
    requires i < |pairs|
    ensures Labels(RowsUpTo(pairs, i + 2)) == Labels(RowsUpTo(pairs, i + 1)) + Labels(RowUpTo(pairs, i + 1, |pairs| + 1))
  {
    var a := i + 2;
    assert a - 1 == i + 1;
    assert RowsUpTo(pairs, a) == RowsUpTo(pairs, i + 1) + RowUpTo(pairs, i + 1, |pairs| + 1);
    LabelsConcat(RowsUpTo(pairs, i + 1), RowUpTo(pairs, i + 1, |pairs| + 1));
  }

  /** RowUpTo unfolded once, written with the inner loop's 0-based indices. */
  lemma RowUpToSnoc(pairs: seq<MFPair>, i: nat, j: nat)
    requires i < j < |pairs|
    ensures RowUpTo(pairs, i + 1, j + 2) ==
      RowUpTo(pairs, i + 1, j + 1) + (if ShareGeneticMaterial(pairs[i], pairs[j]) then [(i + 1, j + 1)] else [])
  {
    var a, b := i + 1, j + 2;
    assert a - 1 == i && b - 1 == j + 1 && b - 2 == j;
  }

  /** One step of the inner loop, at 0-based row i and column j, appends the
      label of (i + 1, j + 1) exactly when that pair is a diamond. */
  lemma RowStep(pairs: seq<MFPair>, i: nat, j: nat)
    requires i < j < |pairs|
    ensures Labels(RowUpTo(pairs, i + 1, j + 2)) ==
      Labels(RowUpTo(pairs, i + 1, j + 1)) +
      (if ShareGeneticMaterial(pairs[i], pairs[j]) then [(NodeId(i + 1), NodeId(j + 1))] else [])
  {
    var share := ShareGeneticMaterial(pairs[i], pairs[j]);
    var row := RowUpTo(pairs, i + 1, j + 1);
    var last: seq<(nat, nat)> := if share then [(i + 1, j + 1)] else [];
    RowUpToSnoc(pairs, i, j);
    LabelsConcat(row, last);
    if share {
      LabelsOne((i + 1, j + 1));
    }
  }

  lemma LabelsOne(p: (nat, nat))
    ensures Labels([p]) == [(NodeId(p.0), NodeId(p.1))]
  {
    assert [p][1..] == [];
  }

  /** The genotype tree holds exactly the entries `MF_1` .. `MF_n`, the k-th
      filed for the k-th pair. */
  ghost predicate TreeMatchesPairs(tree: map<string, GeneticNode>, pairs: seq<MFPair>)
  {
    (forall k :: 1 <= k <= |pairs| ==> NodeId(k) in tree && tree[NodeId(k)] == EntryFor(pairs[k - 1])) &&
    (forall id :: id in tree ==> exists k :: 1 <= k <= |pairs| && id == NodeId(k))
  }

  /** Filing the next pair under `MF_{n+1}` keeps the tree matching the pairs;
      that key was not in use. */
  lemma AddKeepsMatch(tree: map<string, GeneticNode>, pairs: seq<MFPair>, pair: MFPair)
    requires TreeMatchesPairs(tree, pairs)
    ensures NodeId(|pairs| + 1) !in tree
    ensures TreeMatchesPairs(tree[NodeId(|pairs| + 1) := EntryFor(pair)], pairs + [pair])
  {
    var n := |pairs|;
    var tree', pairs' := tree[NodeId(n + 1) := EntryFor(pair)], pairs + [pair];
    forall k | 1 <= k <= n ensures NodeId(k) != NodeId(n + 1) {
      NodeIdInjective(k, n + 1);
    }
    forall k | 1 <= k <= n + 1 ensures NodeId(k) in tree' && tree'[NodeId(k)] == EntryFor(pairs'[k - 1]) {
      if k <= n {
        assert pairs'[k - 1] == pairs[k - 1];
      }
    }
    forall id | id in tree' ensures exists k :: 1 <= k <= n + 1 && id == NodeId(k) {
      if id != NodeId(n + 1) {
        var k :| 1 <= k <= n && id == NodeId(k);
      }
    }
  }

  // ---------------------------------------------------------------------
  // The demonstration's pairs
  // ---------------------------------------------------------------------

  function DemoPairs(): seq<MFPair>
  {
    [MFPair("ATCG", "GCTA", ["neurodivergent_trait1", "baseline_cognition"]),
     MFPair("GCTA", "TAGC", ["enhanced_pattern_recognition", "baseline_cognition"]),
     MFPair("ATCG", "TAGC", ["neurodivergent_trait2", "creative_cognition"])]
  }

  /** A common character of the two mothers' genotypes makes the pairs share
      genetic material. */
  lemma SharedMotherChar(p1: MFPair, p2: MFPair, i: nat, j: nat)
    requires i < |p1.motherGenotype| && j < |p2.motherGenotype|
    requires p1.motherGenotype[i] == p2.motherGenotype[j]
    ensures ShareGeneticMaterial(p1, p2)
  {
    ShareIff(p1, p2);
  }

  /** All three demonstration pairs share genetic material with each other. */
  lemma DemoDiamonds()
    ensures Diamonds(DemoPairs()) == [(1, 2), (1, 3), (2, 3)]
  {
    var pairs := DemoPairs();
    SharedMotherChar(pairs[0], pairs[1], 0, 3);
    SharedMotherChar(pairs[0], pairs[2], 0, 0);
    SharedMotherChar(pairs[1], pairs[2], 3, 0);
    assert RowUpTo(pairs, 1, 4) == [(1, 2), (1, 3)];
    assert RowUpTo(pairs, 2, 4) == [(2, 3)];
  }

  /** The demonstration: three pairs filed as MF_1..MF_3, and every two of them
      reported as a diamond. */
  method DiamondDemo() returns (ids: seq<string>, diamonds: seq<(string, string)>)
    ensures ids == ["MF_1", "MF_2", "MF_3"]
    ensures diamonds == [("MF_1", "MF_2"), ("MF_1", "MF_3"), ("MF_2", "MF_3")]
  {
    var avl := new LosslessGeneticAVL();
    ghost var pairs := DemoPairs();
    DemoPrefixes();
    var id1 := avl.AddMFPair("ATCG", "GCTA", ["neurodivergent_trait1", "baseline_cognition"]);
    assert avl.mfPairs == pairs[..1];
    var id2 := avl.AddMFPair("GCTA", "TAGC", ["enhanced_pattern_recognition", "baseline_cognition"]);
    assert avl.mfPairs == pairs[..2];
    var id3 := avl.AddMFPair("ATCG", "TAGC", ["neurodivergent_trait2", "creative_cognition"]);
    assert avl.mfPairs == pairs;
    ids := [id1, id2, id3];
    diamonds := avl.FindDiamondDependencies();
    DemoDiamonds();
    DemoLabels();
  }

  lemma DemoPrefixes()
    ensures DemoPairs()[..1] == [] + [MFPair("ATCG", "GCTA", ["neurodivergent_trait1", "baseline_cognition"])]
    ensures DemoPairs()[..2] == DemoPairs()[..1] + [MFPair("GCTA", "TAGC", ["enhanced_pattern_recognition", "baseline_cognition"])]
    ensures DemoPairs() == DemoPairs()[..2] + [MFPair("ATCG", "TAGC", ["neurodivergent_trait2", "creative_cognition"])]
  {
  }

  lemma DemoLabels()
    ensures NodeId(1) == "MF_1" && NodeId(2) == "MF_2" && NodeId(3) == "MF_3"
    ensures Labels([(1, 2), (1, 3), (2, 3)]) == [("MF_1", "MF_2"), ("MF_1", "MF_3"), ("MF_2", "MF_3")]
  {
    assert Decimal(1) == "1" && Decimal(2) == "2" && Decimal(3) == "3";
    var xs: seq<(nat, nat)> := [(1, 2), (1, 3), (2, 3)];
    assert xs[1..][1..][1..] == [];
  }
}
