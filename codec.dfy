/** The Huffman-style phenotype codec of LosslessGeneticAVL:
    build_phenotype_encoder (heap merge loop and generate_codes),
    encode_phenotype and decode_phenotype. */
module PhenotypeCodec {

  type Trait = string

  /** A Huffman node. The source uses one node class whose `trait` is None on
      merged nodes and whose children are None on leaves; here the two kinds
      are separate constructors, so a merged node always has both children. */
  datatype Tree =
    | Leaf(name: Trait, freq: real)
    | Node(left: Tree, right: Tree, freq: real)

  datatype CodecError =
    | UnknownTrait(name: Trait)  // `codes[trait]` raises KeyError
    | NoChild                     // a step below a leaf reaches None

  datatype Result<T> = Ok(value: T) | Err(error: CodecError)

  // ---------------------------------------------------------------------
  // Trees
  // ---------------------------------------------------------------------

  /** The traits at the leaves, left to right. */
  function Traits(t: Tree): seq<Trait>
  {
    match t
    case Leaf(x, _) => [x]
    case Node(l, r, _) => Traits(l) + Traits(r)
  }

  /** The number of merged nodes. */
  function InternalCount(t: Tree): nat
  {
    match t
    case Leaf(_, _) => 0
    case Node(l, r, _) => InternalCount(l) + InternalCount(r) + 1
  }

  /** Every merged node carries the sum of its children's frequencies. */
  predicate SumsChildren(t: Tree)
  {
    match t
    case Leaf(_, _) => true
    case Node(l, r, f) => f == l.freq + r.freq && SumsChildren(l) && SumsChildren(r)
  }

  /** No trait occurs twice. */
  ghost predicate Unique(s: seq<Trait>)
  {
    forall x :: multiset(s)[x] <= 1
  }

  /** Pairwise-different entries occur once each. */
  lemma {:induction false} DistinctUnique(s: seq<Trait>)
    requires forall i, j :: 0 <= i < j < |s| ==> s[i] != s[j]
    ensures Unique(s)
  {
    if s != [] {
      DistinctUnique(s[1..]);
      assert s == [s[0]] + s[1..];
      assert s[0] !in s[1..] by {
        forall k | 0 <= k < |s[1..]| ensures s[1..][k] != s[0] {
          assert s[1..][k] == s[k + 1];
        }
      }
      forall x ensures multiset(s)[x] <= 1 {
        assert multiset(s)[x] == multiset([s[0]])[x] + multiset(s[1..])[x];
      }
    }
  }

  lemma UniqueSplit(a: seq<Trait>, b: seq<Trait>)
    requires Unique(a + b)
    ensures Unique(a) && Unique(b)
    ensures forall x :: x in a ==> x !in b
  {
    forall x ensures multiset(a)[x] <= 1 && multiset(b)[x] <= 1 && (x in a ==> x !in b) {
      assert multiset(a + b)[x] == multiset(a)[x] + multiset(b)[x];
    }
  }

  /** A full binary tree has one leaf more than it has merged nodes. */
  lemma {:induction false} LeafCount(t: Tree)
    ensures |Traits(t)| == InternalCount(t) + 1
  {
    match t
    case Leaf(_, _) =>
    case Node(l, r, _) =>
      LeafCount(l);
      LeafCount(r);
  }

  // ---------------------------------------------------------------------
  // The frequency table and the heap of the construction loop
  // ---------------------------------------------------------------------

  /** The traits of a frequency table, in its item order. */
  function TraitsOf(table: seq<(Trait, real)>): seq<Trait>
  {
    if table == [] then [] else [table[0].0] + TraitsOf(table[1..])
  }

  function TotalFreq(table: seq<(Trait, real)>): real
  {
    if table == [] then 0.0 else table[0].1 + TotalFreq(table[1..])
  }

  /** All traits held by the trees of a heap. */
  function HeapTraits(heap: seq<Tree>): multiset<Trait>
  {
    if heap == [] then multiset{} else multiset(Traits(heap[0])) + HeapTraits(heap[1..])
  }

  /** The summed frequency of the trees of a heap. */
  function HeapFreq(heap: seq<Tree>): real
  {
    if heap == [] then 0.0 else heap[0].freq + HeapFreq(heap[1..])
  }

  /** The number of merged nodes in the trees of a heap. */
  function HeapMerges(heap: seq<Tree>): nat
  {
    if heap == [] then 0 else InternalCount(heap[0]) + HeapMerges(heap[1..])
  }

  /** One leaf per table item: the list comprehension that starts the heap. */
  function InitialHeap(table: seq<(Trait, real)>): (heap: seq<Tree>)
    ensures |heap| == |table|
    ensures forall k :: 0 <= k < |heap| ==> heap[k] == Leaf(table[k].0, table[k].1)
    ensures HeapTraits(heap) == multiset(TraitsOf(table))
    ensures HeapFreq(heap) == TotalFreq(table)
    ensures HeapMerges(heap) == 0
  {
    if table == [] then []
    else
      var rest := InitialHeap(table[1..]);
      var heap := [Leaf(table[0].0, table[0].1)] + rest;
      assert heap[1..] == rest;
      heap
  }

  lemma {:induction false} HeapConcat(a: seq<Tree>, b: seq<Tree>)
    ensures HeapTraits(a + b) == HeapTraits(a) + HeapTraits(b)
    ensures HeapFreq(a + b) == HeapFreq(a) + HeapFreq(b)
    ensures HeapMerges(a + b) == HeapMerges(a) + HeapMerges(b)
  {
    if a == [] {
      assert a + b == b;
    } else {
      assert (a + b)[1..] == a[1..] + b;
      HeapConcat(a[1..], b);
    }
  }

  /** The heap with its i-th tree popped. */
  function Without(heap: seq<Tree>, i: nat): (rest: seq<Tree>)
    requires i < |heap|
    ensures |rest| == |heap| - 1
  {
    heap[..i] + heap[i + 1..]
  }

  /** Popping a tree removes exactly its traits, frequency and merges from the heap. */
  lemma PopAccounts(heap: seq<Tree>, i: nat)
    requires i < |heap|
    ensures HeapTraits(heap) == multiset(Traits(heap[i])) + HeapTraits(Without(heap, i))
    ensures HeapFreq(heap) == heap[i].freq + HeapFreq(Without(heap, i))
    ensures HeapMerges(heap) == InternalCount(heap[i]) + HeapMerges(Without(heap, i))
  {
    var front, single, back := heap[..i], [heap[i]], heap[i + 1..];
    OneTree(heap[i]);
    SplitAt(heap, i);
    HeapConcat(front, single + back);
    HeapConcat(single, back);
    HeapConcat(front, back);
  }

  /** The heap cut around position i, with and without the tree at i. */
  lemma SplitAt(heap: seq<Tree>, i: nat)
    requires i < |heap|
    ensures heap == heap[..i] + ([heap[i]] + heap[i + 1..])
    ensures Without(heap, i) == heap[..i] + heap[i + 1..]
  {
    assert heap == heap[..i] + heap[i..];
    assert heap[i..] == [heap[i]] + heap[i + 1..];
  }

  /** A heap of the single tree t holds exactly t's traits, frequency and merges. */
  lemma OneTree(t: Tree)
    ensures HeapTraits([t]) == multiset(Traits(t))
    ensures HeapFreq([t]) == t.freq
    ensures HeapMerges([t]) == InternalCount(t)
  {
    assert [t][1..] == [];
  }

  /** Every tree of the heap keeps the sum-of-children invariant. */
  predicate AllSumChildren(heap: seq<Tree>)
  {
    forall k :: 0 <= k < |heap| ==> SumsChildren(heap[k])
  }

  lemma PopKeepsSums(heap: seq<Tree>, i: nat)
    requires i < |heap| && AllSumChildren(heap)
    ensures SumsChildren(heap[i]) && AllSumChildren(Without(heap, i))
  {
    var rest := Without(heap, i);
    forall k | 0 <= k < |rest| ensures SumsChildren(rest[k]) {
      assert rest[k] == if k < i then heap[k] else heap[k + 1];
    }
  }

  lemma PushKeepsSums(heap: seq<Tree>, t: Tree)
    requires AllSumChildren(heap) && SumsChildren(t)
    ensures AllSumChildren(heap + [t])
  {
  }

  lemma PushAccounts(heap: seq<Tree>, t: Tree)
    ensures HeapTraits(heap + [t]) == HeapTraits(heap) + multiset(Traits(t))
    ensures HeapFreq(heap + [t]) == HeapFreq(heap) + t.freq
    ensures HeapMerges(heap + [t]) == HeapMerges(heap) + InternalCount(t)
  {
    var pushed := [t];
    assert pushed[1..] == [];
    HeapConcat(heap, pushed);
  }

  /** A heap of one tree holds exactly that tree's traits, frequency and merges. */
  lemma LastTree(heap: seq<Tree>)
    requires |heap| == 1 && AllSumChildren(heap)
    ensures SumsChildren(heap[0])
    ensures HeapTraits(heap) == multiset(Traits(heap[0]))
    ensures HeapFreq(heap) == heap[0].freq
    ensures HeapMerges(heap) == InternalCount(heap[0])
  {
    assert heap[1..] == [];
  }

  /** heapq.heappop: removes and returns a tree of minimum frequency. Which one
      of several equal-frequency trees is returned is left open. */
  method HeapPop(heap: seq<Tree>) returns (smallest: Tree, rest: seq<Tree>)
    requires |heap| >= 1
    ensures |rest| == |heap| - 1
    ensures smallest in heap
    ensures forall k :: 0 <= k < |heap| ==> smallest.freq <= heap[k].freq
    ensures multiset(rest) + multiset{smallest} == multiset(heap)
    ensures HeapTraits(heap) == multiset(Traits(smallest)) + HeapTraits(rest)
    ensures HeapFreq(heap) == smallest.freq + HeapFreq(rest)
    ensures HeapMerges(heap) == InternalCount(smallest) + HeapMerges(rest)
    ensures AllSumChildren(heap) ==> SumsChildren(smallest) && AllSumChildren(rest)
  {
    MinExists(heap);
    var i :| IsMinAt(heap, i);
    smallest := heap[i];
    rest := Without(heap, i);
    assert heap == heap[..i] + [smallest] + heap[i + 1..];
    PopAccounts(heap, i);
    if AllSumChildren(heap) {
      PopKeepsSums(heap, i);
    }
  }

  /** heap[i] has a minimum frequency. */
  predicate IsMinAt(heap: seq<Tree>, i: int)
  {
    0 <= i < |heap| && forall k :: 0 <= k < |heap| ==> heap[i].freq <= heap[k].freq
  }

  lemma {:induction false} MinExists(heap: seq<Tree>)
    requires |heap| >= 1
    ensures exists i :: IsMinAt(heap, i)
  {
    if |heap| == 1 {
      assert IsMinAt(heap, 0);
    } else {
      var tail := heap[1..];
      MinExists(tail);
      var j :| IsMinAt(tail, j);
      forall k | 1 <= k < |heap| ensures heap[j + 1].freq <= heap[k].freq {
        assert heap[k] == tail[k - 1];
      }
      if heap[0].freq <= heap[j + 1].freq {
        assert IsMinAt(heap, 0);
      } else {
        assert IsMinAt(heap, j + 1);
      }
    }
  }

  // ---------------------------------------------------------------------
  // Codes
  // ---------------------------------------------------------------------

  /** generate_codes: record the current path at every leaf, '0' on a left
      descent and '1' on a right one; a later write for the same trait wins. */
  function GenerateCodes(t: Tree, prefix: string): map<Trait, string>
  {
    match t
    case Leaf(x, _) => map[x := prefix]
    case Node(l, r, _) => GenerateCodes(l, prefix + "0") + GenerateCodes(r, prefix + "1")
  }

  /** The root-to-leaf path of trait x. */
  function PathTo(t: Tree, x: Trait): string
    requires x in Traits(t)
  {
    match t
    case Leaf(_, _) => ""
    case Node(l, r, _) => if x in Traits(l) then "0" + PathTo(l, x) else "1" + PathTo(r, x)
  }

  /** The subtree reached from t by following a path ('0' left, anything else right). */
  function Descend(t: Tree, path: string): (r: Result<Tree>)
  {
    if path == [] then Ok(t)
    else match t
      case Leaf(_, _) => Err(NoChild)
      case Node(l, r, _) => Descend(if path[0] == '0' then l else r, path[1..])
  }

  /** No code is a prefix of a different trait's code. */
  ghost predicate PrefixFree(codes: map<Trait, string>)
  {
    forall a, b :: a in codes && b in codes && a != b ==> !(codes[a] <= codes[b])
  }

  /** A code is recorded for x exactly when x is at a leaf. */
  lemma {:induction false} CodeRecorded(t: Tree, prefix: string, x: Trait)
    ensures x in GenerateCodes(t, prefix) <==> x in Traits(t)
  {
    match t
    case Leaf(_, _) =>
    case Node(l, r, _) =>
      CodeRecorded(l, prefix + "0", x);
      CodeRecorded(r, prefix + "1", x);
  }

  /** With distinct traits, the code recorded for x is the prefix followed by x's path. */
  lemma {:induction false} CodeIsPath(t: Tree, prefix: string, x: Trait)
    requires Unique(Traits(t)) && x in Traits(t)
    ensures x in GenerateCodes(t, prefix)
    ensures GenerateCodes(t, prefix)[x] == prefix + PathTo(t, x)
  {
    CodeRecorded(t, prefix, x);
    match t
    case Leaf(_, _) =>
    case Node(l, r, _) =>
      UniqueSplit(Traits(l), Traits(r));
      if x in Traits(l) {
        CodeRecorded(r, prefix + "1", x);
        CodeIsPath(l, prefix + "0", x);
        assert (prefix + "0") + PathTo(l, x) == prefix + ("0" + PathTo(l, x));
      } else {
        CodeIsPath(r, prefix + "1", x);
        assert (prefix + "1") + PathTo(r, x) == prefix + ("1" + PathTo(r, x));
      }
  }

  /** Following `path` from t ends at the leaf of trait x. */
  predicate Reaches(t: Tree, path: string, x: Trait)
  {
    var d := Descend(t, path);
    d.Ok? && d.value.Leaf? && d.value.name == x
  }

  /** Following a trait's path from the root ends at that trait's leaf. */
  lemma {:induction false} PathReachesLeaf(t: Tree, x: Trait)
    requires x in Traits(t)
    ensures Reaches(t, PathTo(t, x), x)
  {
    match t
    case Leaf(_, _) =>
    case Node(l, r, _) =>
      if x in Traits(l) {
        assert ("0" + PathTo(l, x))[1..] == PathTo(l, x);
        PathReachesLeaf(l, x);
      } else {
        assert ("1" + PathTo(r, x))[1..] == PathTo(r, x);
        PathReachesLeaf(r, x);
      }
  }

  lemma PrefixAfterSameStep(c: char, a: string, b: string)
    ensures [c] + a <= [c] + b <==> a <= b
  {
    if [c] + a <= [c] + b {
      assert a == ([c] + a)[1..] && b[..|a|] == ([c] + b)[1..|a| + 1];
    }
    if a <= b {
      assert ([c] + b)[..|a| + 1] == [c] + b[..|a|];
    }
  }

  /** Paths of distinct traits are never prefixes of one another. */
  lemma {:induction false} PathsPrefixFree(t: Tree, x: Trait, y: Trait)
    requires Unique(Traits(t))
    requires x in Traits(t) && y in Traits(t) && x != y
    ensures !(PathTo(t, x) <= PathTo(t, y))
  {
    match t
    case Leaf(_, _) =>
    case Node(l, r, _) =>
      UniqueSplit(Traits(l), Traits(r));
      if x in Traits(l) && y in Traits(l) {
        PathsPrefixFree(l, x, y);
        PrefixAfterSameStep('0', PathTo(l, x), PathTo(l, y));
      } else if x in Traits(r) && y in Traits(r) {
        PathsPrefixFree(r, x, y);
        PrefixAfterSameStep('1', PathTo(r, x), PathTo(r, y));
      } else {
        var px, py := PathTo(t, x), PathTo(t, y);
        assert |px| >= 1 && |py| >= 1 && px[0] != py[0];
      }
  }

  /** The code table of a tree with distinct traits is prefix-free. */
  lemma CodesPrefixFree(root: Tree)
    requires Unique(Traits(root))
    ensures PrefixFree(GenerateCodes(root, ""))
  {
    var codes := GenerateCodes(root, "");
    forall a, b | a in codes && b in codes && a != b
      ensures !(codes[a] <= codes[b])
    {
      CodeRecorded(root, "", a);
      CodeRecorded(root, "", b);
      CodeIsPath(root, "", a);
      CodeIsPath(root, "", b);
      assert "" + PathTo(root, a) == PathTo(root, a) && "" + PathTo(root, b) == PathTo(root, b);
      PathsPrefixFree(root, a, b);
    }
  }

  // ---------------------------------------------------------------------
  // build_phenotype_encoder
  // ---------------------------------------------------------------------

  /** One pass of the merge loop: pops a lightest tree `left`, then a lightest
      remaining tree `right`, and pushes their parent, whose frequency is the
      sum of theirs, behind the untouched `others`. Traits and total frequency
      stay in the heap; one more internal node is made. Which of several
      equal-frequency trees is popped is left open. */
  method MergeTwoLightest(heap: seq<Tree>) returns (left: Tree, right: Tree, others: seq<Tree>, next: seq<Tree>)
    requires |heap| >= 2
    requires AllSumChildren(heap)
    ensures multiset(heap) == multiset(others) + multiset{left, right}
    ensures left.freq <= right.freq
    ensures forall t :: t in others ==> right.freq <= t.freq
    ensures next == others + [Node(left, right, left.freq + right.freq)]
    ensures |next| == |heap| - 1
    ensures AllSumChildren(next)
    ensures HeapTraits(next) == HeapTraits(heap)
    ensures HeapFreq(next) == HeapFreq(heap)
    ensures HeapMerges(next) == HeapMerges(heap) + 1
  {
    var rest;
    left, rest := HeapPop(heap);
    right, others := HeapPop(rest);
    var merged := Node(left, right, left.freq + right.freq);
    TwoPopsOrder(heap, rest, others, left, right);
    MergeAccounts(heap, rest, others, left, right);
    next := others + [merged];
  }

  /** Popping `left` and then `right` takes two trees off the heap, lightest
      first, and leaves only trees no lighter than `right`. */
  lemma TwoPopsOrder(heap: seq<Tree>, rest: seq<Tree>, others: seq<Tree>, left: Tree, right: Tree)
    requires forall k :: 0 <= k < |heap| ==> left.freq <= heap[k].freq
    requires multiset(rest) + multiset{left} == multiset(heap)
    requires right in rest
    requires forall k :: 0 <= k < |rest| ==> right.freq <= rest[k].freq
    requires multiset(others) + multiset{right} == multiset(rest)
    ensures multiset(heap) == multiset(others) + multiset{left, right}
    ensures left.freq <= right.freq
    ensures forall t :: t in others ==> right.freq <= t.freq
  {
    LightestOfMultiset(heap, left);
    LightestOfMultiset(rest, right);
    assert right in multiset(heap);
    forall t | t in others ensures right.freq <= t.freq {
      assert t in multiset(others);
      assert t in multiset(rest);
    }
  }

  /** Pushing the parent of the two popped trees restores the heap's traits and
      total frequency, adds one merge, and keeps every node summing its children. */
  lemma MergeAccounts(heap: seq<Tree>, rest: seq<Tree>, others: seq<Tree>, left: Tree, right: Tree)
    requires HeapTraits(heap) == multiset(Traits(left)) + HeapTraits(rest)
    requires HeapFreq(heap) == left.freq + HeapFreq(rest)
    requires HeapMerges(heap) == InternalCount(left) + HeapMerges(rest)
    requires SumsChildren(left) && SumsChildren(right) && AllSumChildren(others)
    requires HeapTraits(rest) == multiset(Traits(right)) + HeapTraits(others)
    requires HeapFreq(rest) == right.freq + HeapFreq(others)
    requires HeapMerges(rest) == InternalCount(right) + HeapMerges(others)
    ensures var next := others + [Node(left, right, left.freq + right.freq)];
      && AllSumChildren(next)
      && HeapTraits(next) == HeapTraits(heap)
      && HeapFreq(next) == HeapFreq(heap)
      && HeapMerges(next) == HeapMerges(heap) + 1
  {
    var merged := Node(left, right, left.freq + right.freq);
    PushAccounts(others, merged);
    PushKeepsSums(others, merged);
  }

  /** A tree no heavier than any element of the heap is no heavier than any
      tree in the heap's multiset. */
  lemma LightestOfMultiset(heap: seq<Tree>, t: Tree)
    requires forall k :: 0 <= k < |heap| ==> t.freq <= heap[k].freq
    ensures forall u :: u in multiset(heap) ==> t.freq <= u.freq
  {
    forall u | u in multiset(heap) ensures t.freq <= u.freq {
      var k :| 0 <= k < |heap| && heap[k] == u;
    }
  }

  /** The merge loop of build_phenotype_encoder: repeatedly pops the two
      lightest trees and pushes their parent until one tree is left. */
  method MergeHeap(table: seq<(Trait, real)>) returns (root: Tree)
    requires |table| >= 1
    ensures SumsChildren(root)
    ensures multiset(Traits(root)) == multiset(TraitsOf(table))
    ensures InternalCount(root) == |table| - 1
    ensures root.freq == TotalFreq(table)
  {
    var heap := InitialHeap(table);
    while |heap| > 1
      invariant |heap| >= 1
      invariant |heap| + HeapMerges(heap) == |table|
      invariant AllSumChildren(heap)
      invariant HeapTraits(heap) == multiset(TraitsOf(table))
      invariant HeapFreq(heap) == TotalFreq(table)
    {
      var _, _, _, next := MergeTwoLightest(heap);
      heap := next;
    }
    root := heap[0];
    LastTree(heap);
  }

  /** build_phenotype_encoder: builds the Huffman tree and its code table. */
  method BuildPhenotypeEncoder(table: seq<(Trait, real)>) returns (codes: map<Trait, string>, root: Tree)
    requires |table| >= 1
    requires Unique(TraitsOf(table))
    ensures SumsChildren(root)
    ensures multiset(Traits(root)) == multiset(TraitsOf(table))
    ensures InternalCount(root) == |table| - 1
    ensures root.freq == TotalFreq(table)
    ensures codes == GenerateCodes(root, "")
    ensures forall x :: x in codes <==> x in TraitsOf(table)
    ensures forall x :: x in codes ==> Reaches(root, codes[x], x)
    ensures PrefixFree(codes)
  {
    root := MergeHeap(table);
    codes := GenerateCodes(root, "");
    CodeTableFacts(table, root);
  }

  /** What the code table of a tree holding exactly the table's traits gives. */
  lemma CodeTableFacts(table: seq<(Trait, real)>, root: Tree)
    requires Unique(TraitsOf(table))
    requires multiset(Traits(root)) == multiset(TraitsOf(table))
    ensures forall x :: x in GenerateCodes(root, "") <==> x in TraitsOf(table)
    ensures forall x :: x in GenerateCodes(root, "") ==> Reaches(root, GenerateCodes(root, "")[x], x)
    ensures PrefixFree(GenerateCodes(root, ""))
  {
    var codes := GenerateCodes(root, "");
    forall x ensures multiset(Traits(root))[x] <= 1 {
      assert multiset(TraitsOf(table))[x] <= 1;
    }
    CodesPrefixFree(root);
    forall x ensures x in codes <==> x in TraitsOf(table) {
      CodeRecorded(root, "", x);
      assert x in Traits(root) <==> x in multiset(TraitsOf(table));
    }
    forall x | x in codes
      ensures Reaches(root, codes[x], x)
    {
      CodeRecorded(root, "", x);
      CodeIsPath(root, "", x);
      assert "" + PathTo(root, x) == PathTo(root, x);
      PathReachesLeaf(root, x);
    }
  }

  // ---------------------------------------------------------------------
  // encode_phenotype
  // ---------------------------------------------------------------------

  /** traits[k] is the first trait without a code. */
  predicate FirstUnknown(traits: seq<Trait>, codes: map<Trait, string>, k: int)
  {
    0 <= k < |traits| && traits[k] !in codes && forall j :: 0 <= j < k ==> traits[j] in codes
  }

  /** The join of the traits' codes, in input order; the first trait without a
      code raises. */
  function Encode(traits: seq<Trait>, codes: map<Trait, string>): (r: Result<string>)
    ensures r.Ok? <==> forall k :: 0 <= k < |traits| ==> traits[k] in codes
    ensures r.Err? ==> exists k :: FirstUnknown(traits, codes, k) && r.error == UnknownTrait(traits[k])
  {
    if traits == [] then Ok("")
    else if traits[0] !in codes then
      assert FirstUnknown(traits, codes, 0);
      Err(UnknownTrait(traits[0]))
    else
      match Encode(traits[1..], codes)
      case Ok(rest) => Ok(codes[traits[0]] + rest)
      case Err(e) =>
        var k :| FirstUnknown(traits[1..], codes, k) && e == UnknownTrait(traits[1..][k]);
        assert FirstUnknown(traits, codes, k + 1);
        Err(e)
  }

  /** encode_phenotype: builds the encoder and encodes. The tree is returned as
      well, so that the caller can decode with the very tree the codes came from. */
  method EncodePhenotype(phenotypeTraits: seq<Trait>, table: seq<(Trait, real)>)
    returns (encoded: Result<string>, codes: map<Trait, string>, root: Tree)
    requires |table| >= 1
    requires Unique(TraitsOf(table))
    ensures codes == GenerateCodes(root, "")
    ensures multiset(Traits(root)) == multiset(TraitsOf(table))
    ensures InternalCount(root) == |table| - 1
    ensures encoded == Encode(phenotypeTraits, codes)
    ensures encoded.Ok? <==> forall k :: 0 <= k < |phenotypeTraits| ==> phenotypeTraits[k] in TraitsOf(table)
  {
    codes, root := BuildPhenotypeEncoder(table);
    encoded := Encode(phenotypeTraits, codes);
  }

  // ---------------------------------------------------------------------
  // decode_phenotype
  // ---------------------------------------------------------------------

  /** Puts `front` ahead of a successful decoding; errors pass through. */
  function Prepend(front: seq<Trait>, r: Result<seq<Trait>>): Result<seq<Trait>>
  {
    match r
    case Ok(v) => Ok(front + v)
    case Err(e) => Err(e)
  }

  lemma PrependNothing(r: Result<seq<Trait>>)
    ensures Prepend([], r) == r
  {
    if r.Ok? {
      assert [] + r.value == r.value;
    }
  }

  lemma PrependTwice(a: seq<Trait>, b: seq<Trait>, r: Result<seq<Trait>>)
    ensures Prepend(a, Prepend(b, r)) == Prepend(a + b, r)
  {
    if r.Ok? {
      assert a + (b + r.value) == (a + b) + r.value;
    }
  }

  /** The traits decoded from `bits`, starting at node `cur`: a '0' steps left,
      any other character right; reaching a leaf emits its trait and restarts at
      the root; bits left over part-way down the tree are dropped. A step below
      a leaf (only possible when the root is a leaf) is the source's None
      dereference. */
  function DecodeFrom(root: Tree, cur: Tree, bits: string): Result<seq<Trait>>
    decreases |bits|
  {
    if bits == [] then Ok([])
    else match cur
      case Leaf(_, _) => Err(NoChild)
      case Node(l, r, _) =>
        var next := if bits[0] == '0' then l else r;
        if next.Leaf? then Prepend([next.name], DecodeFrom(root, root, bits[1..]))
        else DecodeFrom(root, next, bits[1..])
  }

  /** decode_phenotype: walks the tree bit by bit. */
  method DecodePhenotype(encodedStr: string, huffmanTree: Tree) returns (r: Result<seq<Trait>>)
    ensures r == DecodeFrom(huffmanTree, huffmanTree, encodedStr)
  {
    var decoded: seq<Trait> := [];
    var current := huffmanTree;
    var i := 0;
    PrependNothing(DecodeFrom(huffmanTree, huffmanTree, encodedStr));
    while i < |encodedStr|
      invariant 0 <= i <= |encodedStr|
      invariant Prepend(decoded, DecodeFrom(huffmanTree, current, encodedStr[i..]))
             == DecodeFrom(huffmanTree, huffmanTree, encodedStr)
    {
      assert encodedStr[i..][0] == encodedStr[i] && encodedStr[i..][1..] == encodedStr[i + 1..];
      if current.Leaf? {
        return Err(NoChild);
      }
      current := if encodedStr[i] == '0' then current.left else current.right;
      if current.Leaf? {
        PrependTwice(decoded, [current.name], DecodeFrom(huffmanTree, huffmanTree, encodedStr[i + 1..]));
        decoded := decoded + [current.name];
        current := huffmanTree;
      }
      i := i + 1;
    }
    assert encodedStr[i..] == [];
    assert decoded + [] == decoded;
    r := Ok(decoded);
  }

  // ---------------------------------------------------------------------
  // Round trip and decoder edge behaviour
  // ---------------------------------------------------------------------

  /** Decoding a trait's path from a merged node emits exactly that trait and
      continues at the root. */
  lemma {:induction false} DecodePath(root: Tree, cur: Tree, x: Trait, rest: string)
    requires cur.Node? && x in Traits(cur)
    ensures DecodeFrom(root, cur, PathTo(cur, x) + rest) == Prepend([x], DecodeFrom(root, root, rest))
  {
    var Node(l, r, _) := cur;
    var bits := PathTo(cur, x) + rest;
    if x in Traits(l) {
      assert bits[0] == '0' && bits[1..] == PathTo(l, x) + rest;
      if l.Node? {
        DecodePath(root, l, x, rest);
      }
    } else {
      assert bits[0] == '1' && bits[1..] == PathTo(r, x) + rest;
      if r.Node? {
        DecodePath(root, r, x, rest);
      }
    }
  }

  /** Decoding an encoded sequence followed by more bits yields the sequence
      followed by whatever the remaining bits decode to. */
  lemma {:induction false} DecodeEncoded(root: Tree, s: seq<Trait>, rest: string)
    requires root.Node? && Unique(Traits(root))
    requires forall k :: 0 <= k < |s| ==> s[k] in Traits(root)
    ensures Encode(s, GenerateCodes(root, "")).Ok?
    ensures DecodeFrom(root, root, Encode(s, GenerateCodes(root, "")).value + rest)
         == Prepend(s, DecodeFrom(root, root, rest))
  {
    var codes := GenerateCodes(root, "");
    forall k | 0 <= k < |s| ensures s[k] in codes {
      CodeRecorded(root, "", s[k]);
    }
    if s == [] {
      PrependNothing(DecodeFrom(root, root, rest));
      assert "" + rest == rest;
    } else {
      var tail := Encode(s[1..], codes).value;
      DecodeEncoded(root, s[1..], rest);
      CodeIsPath(root, "", s[0]);
      assert codes[s[0]] == PathTo(root, s[0]);
      assert Encode(s, codes).value + rest == PathTo(root, s[0]) + (tail + rest);
      DecodePath(root, root, s[0], tail + rest);
      PrependTwice([s[0]], s[1..], DecodeFrom(root, root, rest));
      assert [s[0]] + s[1..] == s;
    }
  }

  /** The round trip: with at least two traits, decoding the encoding of any
      sequence over the alphabet with the same tree gives the sequence back. */
  lemma RoundTrip(root: Tree, s: seq<Trait>)
    requires root.Node? && Unique(Traits(root))
    requires forall k :: 0 <= k < |s| ==> s[k] in Traits(root)
    ensures Encode(s, GenerateCodes(root, "")).Ok?
    ensures DecodeFrom(root, root, Encode(s, GenerateCodes(root, "")).value) == Ok(s)
  {
    var e := Encode(s, GenerateCodes(root, ""));
    DecodeEncoded(root, s, "");
    assert e.value + "" == e.value;
    assert s + [] == s;
  }

  /** The round trip for the tree built from a table of at least two traits. */
  lemma BuiltRoundTrip(table: seq<(Trait, real)>, root: Tree, s: seq<Trait>)
    requires |table| >= 2 && Unique(TraitsOf(table))
    requires multiset(Traits(root)) == multiset(TraitsOf(table))
    requires InternalCount(root) == |table| - 1
    requires forall k :: 0 <= k < |s| ==> s[k] in TraitsOf(table)
    ensures Encode(s, GenerateCodes(root, "")).Ok?
    ensures DecodeFrom(root, root, Encode(s, GenerateCodes(root, "")).value) == Ok(s)
  {
    forall k | 0 <= k < |s| ensures s[k] in Traits(root) {
      assert s[k] in multiset(TraitsOf(table));
    }
    RoundTrip(root, s);
  }

  /** A decoding that stops part-way down the tree emits nothing for the stub. */
  lemma {:induction false} PartialPathDecodesNothing(root: Tree, cur: Tree, x: Trait, k: nat)
    requires cur.Node? && x in Traits(cur)
    requires k < |PathTo(cur, x)|
    ensures DecodeFrom(root, cur, PathTo(cur, x)[..k]) == Ok([])
  {
    if k > 0 {
      var Node(l, r, _) := cur;
      var stub := PathTo(cur, x)[..k];
      if x in Traits(l) {
        assert stub[0] == '0' && stub[1..] == PathTo(l, x)[..k - 1];
        PartialPathDecodesNothing(root, l, x, k - 1);
      } else {
        assert stub[0] == '1' && stub[1..] == PathTo(r, x)[..k - 1];
        PartialPathDecodesNothing(root, r, x, k - 1);
      }
    }
  }

  /** Trailing bits that end part-way down the tree are silently dropped. */
  lemma TrailingBitsDropped(root: Tree, s: seq<Trait>, x: Trait, k: nat)
    requires root.Node? && Unique(Traits(root))
    requires forall k :: 0 <= k < |s| ==> s[k] in Traits(root)
    requires x in Traits(root) && k < |PathTo(root, x)|
    ensures Encode(s, GenerateCodes(root, "")).Ok?
    ensures DecodeFrom(root, root, Encode(s, GenerateCodes(root, "")).value + PathTo(root, x)[..k]) == Ok(s)
  {
    DecodeEncoded(root, s, PathTo(root, x)[..k]);
    PartialPathDecodesNothing(root, root, x, k);
    assert s + [] == s;
  }

  /** Replaces every character other than '0' by '1'. */
  function AsBinary(bits: string): (b: string)
    ensures |b| == |bits|
    ensures forall i :: 0 <= i < |bits| ==> (b[i] == '0' <==> bits[i] == '0')
  {
    if bits == [] then [] else [if bits[0] == '0' then '0' else '1'] + AsBinary(bits[1..])
  }

  /** Any character other than '0' is a right step, exactly like '1'. */
  lemma {:induction false} NonZeroStepsRight(root: Tree, cur: Tree, bits: string)
    ensures DecodeFrom(root, cur, bits) == DecodeFrom(root, cur, AsBinary(bits))
    decreases |bits|
  {
    if bits != [] && cur.Node? {
      var b := AsBinary(bits);
      assert b[1..] == AsBinary(bits[1..]);
      var next := if bits[0] == '0' then cur.left else cur.right;
      if next.Leaf? {
        NonZeroStepsRight(root, root, bits[1..]);
      } else {
        NonZeroStepsRight(root, next, bits[1..]);
      }
    }
  }

  /** With a single trait the root is a leaf: its code is empty, every
      sequence over the alphabet encodes to the empty string, and that decodes
      to the empty sequence, so the round trip fails for a non-empty input. */
  lemma {:induction false} SingleTraitLosesInput(x: Trait, f: real, s: seq<Trait>)
    requires forall k :: 0 <= k < |s| ==> s[k] == x
    ensures GenerateCodes(Leaf(x, f), "") == map[x := ""]
    ensures Encode(s, GenerateCodes(Leaf(x, f), "")) == Ok("")
    ensures DecodeFrom(Leaf(x, f), Leaf(x, f), Encode(s, GenerateCodes(Leaf(x, f), "")).value) == Ok([])
  {
    if s != [] {
      SingleTraitLosesInput(x, f, s[1..]);
      assert "" + "" == "";
    }
  }

  /** Decoding any bit from a leaf root is the None dereference. */
  lemma LeafRootRejectsBits(x: Trait, f: real, bits: string)
    requires |bits| > 0
    ensures DecodeFrom(Leaf(x, f), Leaf(x, f), bits) == Err(NoChild)
  {
  }

  /** Building from one trait yields a leaf root, from two or more a merged one. */
  lemma RootShape(table: seq<(Trait, real)>, root: Tree)
    requires |table| >= 1
    requires multiset(Traits(root)) == multiset(TraitsOf(table))
    requires InternalCount(root) == |table| - 1
    ensures root.Leaf? <==> |table| == 1
  {
  }

  // ---------------------------------------------------------------------
  // The demonstration at the end of the script
  // ---------------------------------------------------------------------

  function DemoTable(): seq<(Trait, real)>
  {
    [("neurodivergent_trait1", 0.2), ("neurodivergent_trait2", 0.3), ("baseline_cognition", 0.4),
     ("enhanced_pattern_recognition", 0.05), ("creative_cognition", 0.05)]
  }

  lemma DemoTableTraits()
    ensures TraitsOf(DemoTable()) == ["neurodivergent_trait1", "neurodivergent_trait2", "baseline_cognition",
                                      "enhanced_pattern_recognition", "creative_cognition"]
    ensures Unique(TraitsOf(DemoTable()))
  {
    var table := DemoTable();
    var names := ["neurodivergent_trait1", "neurodivergent_trait2", "baseline_cognition",
                  "enhanced_pattern_recognition", "creative_cognition"];
    assert TraitsOf(table[4..]) == names[4..];
    assert TraitsOf(table[3..]) == names[3..];
    assert TraitsOf(table[2..]) == names[2..];
    assert TraitsOf(table[1..]) == names[1..];
    assert TraitsOf(table) == names;
    assert names[0][20] != names[1][20];
    assert names[2][0] != names[4][0];
    DistinctUnique(names);
  }

  /** The demonstration's phenotype uses traits of the demonstration table only. */
  lemma DemoPhenotypeKnown(phenotype: seq<Trait>)
    requires phenotype == ["neurodivergent_trait1", "baseline_cognition", "creative_cognition"]
    ensures forall k :: 0 <= k < |phenotype| ==> phenotype[k] in TraitsOf(DemoTable())
  {
    DemoTableTraits();
    var names := TraitsOf(DemoTable());
    assert phenotype[0] == names[0] && phenotype[1] == names[2] && phenotype[2] == names[4];
  }

  /** The demonstration's phenotype survives encoding and decoding. */
  method LosslessDemo() returns (phenotype: seq<Trait>, decoded: Result<seq<Trait>>)
    ensures decoded == Ok(phenotype)
    ensures phenotype == ["neurodivergent_trait1", "baseline_cognition", "creative_cognition"]
  {
    var table := DemoTable();
    phenotype := ["neurodivergent_trait1", "baseline_cognition", "creative_cognition"];
    DemoTableTraits();
    DemoPhenotypeKnown(phenotype);
    var encoded, codes, root := EncodePhenotype(phenotype, table);
    BuiltRoundTrip(table, root, phenotype);
    decoded := DecodePhenotype(encoded.value, root);
  }
}
