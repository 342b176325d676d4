/** Dependency-gated gene acquisition: the gene catalog and its resolver
    (GenomicDependencyGraph), the threat-level observer (ActiveGovernor) and
    the acquisition loop of run_rift_simulation. */
module BioGovernance {

  type GeneId = string

  /** BioThreatLevel. PANDEMIC is declared but never assigned. */
  datatype BioThreatLevel = Safe | Monitored | Critical | Pandemic

  /** GeneNode; `resistance_factor` is a float in the source. */
  datatype GeneNode = GeneNode(id: GeneId, name: string, resistanceFactor: real, dependencies: seq<GeneId>)

  /** One governance log line, without its timestamp and formatting. */
  datatype LogEntry = LogEntry(strainId: string, score: real, status: BioThreatLevel)

  /** What the containment protocol reports: the strain and the last mutation it
      was handed. */
  datatype Alert = Alert(strainId: string, cause: GeneId)

  datatype Option<T> = None | Some(value: T)

  // ---------------------------------------------------------------------
  // Dependency resolution
  // ---------------------------------------------------------------------

  /** The target is in the catalog and each of its direct dependencies is in
      the genome. Whether the target is already acquired, and whether the
      dependencies are themselves in the catalog, plays no part. */
  ghost predicate Resolvable(nodes: map<GeneId, GeneNode>, genome: set<GeneId>, target: GeneId)
  {
    target in nodes &&
    forall k :: 0 <= k < |nodes[target].dependencies| ==> nodes[target].dependencies[k] in genome
  }

  /** A gene that resolves against a genome resolves against any larger genome. */
  lemma ResolvableMonotone(nodes: map<GeneId, GeneNode>, g1: set<GeneId>, g2: set<GeneId>, target: GeneId)
    requires g1 <= g2 && Resolvable(nodes, g1, target)
    ensures Resolvable(nodes, g2, target)
  {
  }

  /** A gene without dependencies resolves exactly when it is in the catalog. */
  lemma NoDependenciesResolve(nodes: map<GeneId, GeneNode>, genome: set<GeneId>, target: GeneId)
    requires target in nodes ==> nodes[target].dependencies == []
    ensures Resolvable(nodes, genome, target) <==> target in nodes
  {
  }

  class GenomicDependencyGraph {
    var nodes: map<GeneId, GeneNode>
    var activeStrains: map<string, set<GeneId>>

    constructor ()
      ensures nodes == map[] && activeStrains == map[]
    {
      nodes := map[];
      activeStrains := map[];
    }

    /** add_gene: files the gene under its id, replacing an earlier gene with
        the same id; no other entry changes. */
    method AddGene(gene: GeneNode)
      modifies this`nodes
      ensures nodes == old(nodes)[gene.id := gene]
      ensures forall id :: id != gene.id ==> (id in nodes <==> id in old(nodes))
      ensures forall id :: id != gene.id && id in nodes ==> nodes[id] == old(nodes)[id]
    {
      nodes := nodes[gene.id := gene];
    }

    /** resolve_dependencies: a read-only check with early returns. */
    method ResolveDependencies(strainGenome: set<GeneId>, targetGeneId: GeneId) returns (canEvolve: bool)
      ensures canEvolve <==> Resolvable(nodes, strainGenome, targetGeneId)
      ensures canEvolve ==> targetGeneId in nodes
    {
      if targetGeneId !in nodes {
        return false;
      }
      var target := nodes[targetGeneId];
      var k := 0;
      while k < |target.dependencies|
        invariant 0 <= k <= |target.dependencies|
        invariant forall m :: 0 <= m < k ==> target.dependencies[m] in strainGenome
      {
        if target.dependencies[k] !in strainGenome {
          return false;
        }
        k := k + 1;
      }
      return true;
    }
  }

  // ---------------------------------------------------------------------
  // Threat levels
  // ---------------------------------------------------------------------

  /** The status banding of observe. */
  function StatusOf(score: real): BioThreatLevel
  {
    if score > 0.8 then Critical
    else if score > 0.4 then Monitored
    else Safe
  }

  /** The three bands, both directions, and the unused PANDEMIC level. */
  lemma StatusBands(score: real)
    ensures StatusOf(score) == Critical <==> score > 0.8
    ensures StatusOf(score) == Monitored <==> 0.4 < score <= 0.8
    ensures StatusOf(score) == Safe <==> score <= 0.4
    ensures StatusOf(score) != Pandemic
  {
  }

  function Severity(level: BioThreatLevel): nat
  {
    match level
    case Safe => 0
    case Monitored => 1
    case Critical => 2
    case Pandemic => 3
  }

  /** A higher score never gives a lower threat level. */
  lemma StatusMonotone(s1: real, s2: real)
    requires s1 <= s2
    ensures Severity(StatusOf(s1)) <= Severity(StatusOf(s2))
  {
  }

  class ActiveGovernor {
    var alertThreshold: real
    var logs: seq<LogEntry>

    constructor (threshold: real)
      ensures alertThreshold == threshold && logs == []
    {
      alertThreshold := threshold;
      logs := [];
    }

    /** observe: logs one entry with the banded status and, for a CRITICAL
        status only, runs the containment protocol on the last mutation. */
    method Observe(strainId: string, resistanceScore: real, mutations: seq<GeneId>) returns (alert: Option<Alert>)
      requires StatusOf(resistanceScore) == Critical ==> |mutations| > 0
      modifies this`logs
      ensures logs == old(logs) + [LogEntry(strainId, resistanceScore, StatusOf(resistanceScore))]
      ensures alert.Some? <==> resistanceScore > 0.8
      ensures alert.Some? ==> alert.value == ContainmentAlert(strainId, mutations)
    {
      var status := Safe;
      if resistanceScore > 0.8 {
        status := Critical;
      } else if resistanceScore > 0.4 {
        status := Monitored;
      }
      logs := logs + [LogEntry(strainId, resistanceScore, status)];
      alert := None;
      if status == Critical {
        alert := Some(ContainmentAlert(strainId, mutations));
      }
    }
  }

  /** trigger_containment_protocol: reports `mutations[-1]` as the cause. */
  function ContainmentAlert(strainId: string, mutations: seq<GeneId>): (alert: Alert)
    requires |mutations| > 0
    ensures alert.strainId == strainId && alert.cause in mutations
  {
    Alert(strainId, mutations[|mutations| - 1])
  }

  // ---------------------------------------------------------------------
  // The acquisition loop
  // ---------------------------------------------------------------------

  /** The state of the acquisition loop: the genome, current_resistance, and
      the log entries the governor has received. */
  datatype Progress = Progress(genome: set<GeneId>, resistance: real, entries: seq<LogEntry>)

  /** The loop run over `steps`, from an empty genome and resistance 0.0: a
      step is acquired only when it resolves against the genome so far. */
  ghost function Evolve(nodes: map<GeneId, GeneNode>, strainId: string, steps: seq<GeneId>): Progress
    decreases |steps|
  {
    if steps == [] then Progress({}, 0.0, [])
    else
      var before := Evolve(nodes, strainId, steps[..|steps| - 1]);
      var id := steps[|steps| - 1];
      if Resolvable(nodes, before.genome, id) then
        var r := nodes[id].resistanceFactor;
        Progress(before.genome + {id}, r, before.entries + [LogEntry(strainId, r, StatusOf(r))])
      else before
  }

  /** Genes are never lost: the genome after a prefix of the steps is part of
      the genome after all of them. */
  lemma {:induction false} GenomeOnlyGrows(nodes: map<GeneId, GeneNode>, strainId: string, steps: seq<GeneId>, i: nat)
    requires i <= |steps|
    ensures Evolve(nodes, strainId, steps[..i]).genome <= Evolve(nodes, strainId, steps).genome
    decreases |steps|
  {
    if i < |steps| {
      var front := steps[..|steps| - 1];
      assert front[..i] == steps[..i];
      GenomeOnlyGrows(nodes, strainId, front, i);
    } else {
      assert steps[..i] == steps;
    }
  }

  /** A gene is in the final genome exactly when some step named it and, at
      that step, it resolved against the genome acquired before. */
  lemma {:induction false} AcquiredOnlyWhenResolved(nodes: map<GeneId, GeneNode>, strainId: string, steps: seq<GeneId>, x: GeneId)
    ensures x in Evolve(nodes, strainId, steps).genome <==>
      exists k :: 0 <= k < |steps| && steps[k] == x && Resolvable(nodes, Evolve(nodes, strainId, steps[..k]).genome, x)
    decreases |steps|
  {
    if steps != [] {
      var n := |steps| - 1;
      var front := steps[..n];
      AcquiredOnlyWhenResolved(nodes, strainId, front, x);
      assert steps[..n] == front;
      assert forall k :: 0 <= k < n ==> front[k] == steps[k] && front[..k] == steps[..k];
      if x in Evolve(nodes, strainId, steps).genome {
        if x !in Evolve(nodes, strainId, front).genome {
          assert steps[n] == x && Resolvable(nodes, Evolve(nodes, strainId, steps[..n]).genome, x);
        }
      }
      if exists k :: 0 <= k < |steps| && steps[k] == x && Resolvable(nodes, Evolve(nodes, strainId, steps[..k]).genome, x) {
        var k :| 0 <= k < |steps| && steps[k] == x && Resolvable(nodes, Evolve(nodes, strainId, steps[..k]).genome, x);
        if k == n {
          assert x in Evolve(nodes, strainId, steps).genome;
        } else {
          assert x in Evolve(nodes, strainId, front).genome;
          GenomeOnlyGrows(nodes, strainId, steps, n);
        }
      }
    }
  }

  /** What the governor receives: every entry names the strain and carries the
      banded status of its score; one entry per acquiring step, so never fewer
      entries than genes and never more than steps; every gene acquired is a
      catalog gene that was named by a step; and the current resistance is the
      score of the last entry, 0.0 before any. */
  lemma {:induction false} EvolveFacts(nodes: map<GeneId, GeneNode>, strainId: string, steps: seq<GeneId>)
    ensures var p := Evolve(nodes, strainId, steps);
      && (forall k :: 0 <= k < |p.entries| ==>
            p.entries[k].strainId == strainId && p.entries[k].status == StatusOf(p.entries[k].score))
      && |p.genome| <= |p.entries| <= |steps|
      && (forall x :: x in p.genome ==> x in nodes && x in steps)
      && p.resistance == (if p.entries == [] then 0.0 else p.entries[|p.entries| - 1].score)
    decreases |steps|
  {
    if steps != [] {
      var front := steps[..|steps| - 1];
      EvolveFacts(nodes, strainId, front);
      assert forall x :: x in front ==> x in steps;
      var before := Evolve(nodes, strainId, front);
      var id := steps[|steps| - 1];
      if Resolvable(nodes, before.genome, id) {
        assert |before.genome + {id}| <= |before.genome| + 1;
      }
    }
  }

  /** The entries with a CRITICAL status, in order: those for which the
      containment protocol ran. */
  function Criticals(entries: seq<LogEntry>): seq<LogEntry>
    decreases |entries|
  {
    if entries == [] then []
    else
      var last := entries[|entries| - 1];
      Criticals(entries[..|entries| - 1]) + (if last.status == Critical then [last] else [])
  }

  /** list(genome): the genome's ids, each once, in an unspecified order. */
  method ListOf(genome: set<GeneId>) returns (s: seq<GeneId>)
    ensures forall x :: x in s <==> x in genome
    ensures |s| == |genome|
  {
    s := [];
    var rest := genome;
    while rest != {}
      invariant rest <= genome
      invariant forall x :: x in s <==> x in genome && x !in rest
      invariant |s| + |rest| == |genome|
      decreases |rest|
    {
      var x :| x in rest;
      s := s + [x];
      rest := rest - {x};
    }
  }

  /** The loop of run_rift_simulation over `steps`: resolve, then acquire and
      notify the governor. */
  method RunAcquisition(graph: GenomicDependencyGraph, governor: ActiveGovernor, strainId: string, steps: seq<GeneId>)
    returns (genome: set<GeneId>, currentResistance: real, alerts: seq<Alert>)
    modifies governor`logs
    ensures genome == Evolve(graph.nodes, strainId, steps).genome
    ensures currentResistance == Evolve(graph.nodes, strainId, steps).resistance
    ensures governor.logs == old(governor.logs) + Evolve(graph.nodes, strainId, steps).entries
    ensures forall k :: 0 <= k < |alerts| ==> alerts[k].strainId == strainId && alerts[k].cause in genome
    ensures |alerts| == |Criticals(Evolve(graph.nodes, strainId, steps).entries)|
  {
    genome := {};
    currentResistance := 0.0;
    alerts := [];
    ghost var entries: seq<LogEntry> := [];
    var i := 0;
    while i < |steps|
      invariant 0 <= i <= |steps|
      invariant governor.logs == old(governor.logs) + entries
      invariant Progress(genome, currentResistance, entries) == Evolve(graph.nodes, strainId, steps[..i])
      invariant forall k :: 0 <= k < |alerts| ==> alerts[k].strainId == strainId && alerts[k].cause in genome
      invariant |alerts| == |Criticals(entries)|
    {
      var stepGeneId := steps[i];
      assert steps[..i + 1][..i] == steps[..i];
      var canEvolve := graph.ResolveDependencies(genome, stepGeneId);
      if canEvolve {
        genome := genome + {stepGeneId};
        currentResistance := graph.nodes[stepGeneId].resistanceFactor;
        var mutations := ListOf(genome);
        var alert := governor.Observe(strainId, currentResistance, mutations);
        ghost var entry := LogEntry(strainId, currentResistance, StatusOf(currentResistance));
        assert (entries + [entry])[..|entries|] == entries;
        entries := entries + [entry];
        if alert.Some? {
          alerts := alerts + [alert.value];
        }
      }
      i := i + 1;
    }
    assert steps[..|steps|] == steps;
  }

  // ---------------------------------------------------------------------
  // The MRSA scenario of run_rift_simulation
  // ---------------------------------------------------------------------

  const DemoStrain: string := "STAPH_V1"

  function DemoGenes(): seq<GeneNode>
  {
    [ GeneNode("g01", "CellWall_Synthesis", 0.1, []),
      GeneNode("g02", "Beta-Lactamase_Production", 0.3, ["g01"]),
      GeneNode("mecA", "PBP2a_Alteration (MRSA)", 0.95, ["g02"]) ]
  }

  /** The catalog after the three add_gene calls. */
  function DemoCatalog(): map<GeneId, GeneNode>
  {
    map["g01" := DemoGenes()[0], "g02" := DemoGenes()[1], "mecA" := DemoGenes()[2]]
  }

  /** In the scenario's order each gene resolves: the strain ends with all
      three, resistance 0.95, and the governor logs SAFE, SAFE, CRITICAL, the
      last one being the only containment. */
  lemma DemoEvolution()
    ensures Evolve(DemoCatalog(), DemoStrain, ["g01", "g02", "mecA"]) ==
      Progress({"g01", "g02", "mecA"}, 0.95,
        [LogEntry(DemoStrain, 0.1, Safe), LogEntry(DemoStrain, 0.3, Safe), LogEntry(DemoStrain, 0.95, Critical)])
    ensures |Criticals(Evolve(DemoCatalog(), DemoStrain, ["g01", "g02", "mecA"]).entries)| == 1
  {
    var nodes := DemoCatalog();
    var s2: seq<GeneId> := ["g01", "g02"];
    var s3: seq<GeneId> := ["g01", "g02", "mecA"];
    assert s3[..2] == s2;
    DemoFirstTwo();
    assert nodes["mecA"].dependencies[0] in {"g01", "g02"};
    DemoCriticals();
  }

  /** The first two steps of the scenario: g01, then g02 on top of it. */
  lemma DemoFirstTwo()
    ensures Evolve(DemoCatalog(), DemoStrain, ["g01", "g02"]) ==
      Progress({"g01", "g02"}, 0.3, [LogEntry(DemoStrain, 0.1, Safe), LogEntry(DemoStrain, 0.3, Safe)])
  {
    var nodes := DemoCatalog();
    var s1: seq<GeneId> := ["g01"];
    var s2: seq<GeneId> := ["g01", "g02"];
    assert s1[..0] == [] && s2[..1] == s1;
    assert Evolve(nodes, DemoStrain, s1) == Progress({"g01"}, 0.1, [LogEntry(DemoStrain, 0.1, Safe)]);
    assert nodes["g02"].dependencies[0] in {"g01"};
  }

  /** Of the scenario's three log entries only the last is CRITICAL. */
  lemma DemoCriticals()
    ensures Criticals([LogEntry(DemoStrain, 0.1, Safe), LogEntry(DemoStrain, 0.3, Safe), LogEntry(DemoStrain, 0.95, Critical)])
      == [LogEntry(DemoStrain, 0.95, Critical)]
  {
    var e1 := LogEntry(DemoStrain, 0.1, Safe);
    var e2 := LogEntry(DemoStrain, 0.3, Safe);
    var e3 := LogEntry(DemoStrain, 0.95, Critical);
    assert [e1, e2, e3][..2] == [e1, e2] && [e1, e2][..1] == [e1] && [e1][..0] == [];
    assert Criticals([e1]) == [];
    assert Criticals([e1, e2]) == [];
  }

  /** Out of order, the dependency gate holds: mecA and g02 are refused before
      their prerequisites, and only g01 is acquired. */
  lemma DemoOutOfOrder()
    ensures Evolve(DemoCatalog(), DemoStrain, ["mecA", "g02", "g01"]) ==
      Progress({"g01"}, 0.1, [LogEntry(DemoStrain, 0.1, Safe)])
  {
    var nodes := DemoCatalog();
    var s1: seq<GeneId> := ["mecA"];
    var s2: seq<GeneId> := ["mecA", "g02"];
    var s3: seq<GeneId> := ["mecA", "g02", "g01"];
    assert s1[..0] == [] && s2[..1] == s1 && s3[..2] == s2;
    assert Evolve(nodes, DemoStrain, []) == Progress({}, 0.0, []);
    assert nodes["mecA"].dependencies[0] !in Evolve(nodes, DemoStrain, []).genome;
    assert !Resolvable(nodes, Evolve(nodes, DemoStrain, s1[..0]).genome, "mecA");
    assert Evolve(nodes, DemoStrain, s1) == Progress({}, 0.0, []);
    assert nodes["g02"].dependencies[0] !in Evolve(nodes, DemoStrain, s1).genome;
    assert !Resolvable(nodes, Evolve(nodes, DemoStrain, s2[..1]).genome, "g02");
    assert Evolve(nodes, DemoStrain, s2) == Progress({}, 0.0, []);
  }

  /** run_rift_simulation: the three genes, a governor with threshold 0.7, and
      the acquisition loop over g01, g02, mecA. */
  method RunRiftSimulation() returns (genome: set<GeneId>, currentResistance: real, logs: seq<LogEntry>, alerts: seq<Alert>)
    ensures genome == {"g01", "g02", "mecA"} && currentResistance == 0.95
    ensures logs == [LogEntry(DemoStrain, 0.1, Safe), LogEntry(DemoStrain, 0.3, Safe), LogEntry(DemoStrain, 0.95, Critical)]
    ensures |alerts| == 1 && alerts[0].strainId == DemoStrain
  {
    var graph := new GenomicDependencyGraph();
    var governor := new ActiveGovernor(0.7);
    graph.AddGene(DemoGenes()[0]);
    graph.AddGene(DemoGenes()[1]);
    graph.AddGene(DemoGenes()[2]);
    assert graph.nodes == DemoCatalog();
    DemoEvolution();
    genome, currentResistance, alerts := RunAcquisition(graph, governor, DemoStrain, ["g01", "g02", "mecA"]);
    logs := governor.logs;
  }
}
