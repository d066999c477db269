/** `convert_images` of cbzxl.py runs its candidates on a thread pool and adds
    up the results as they complete. Here one completion order is a sequence,
    and the images are converted one after another in that order. When no two
    candidates share a stem the total does not depend on the order; when two
    do (say `p.jpeg` and `p.jpg`), it can. */
module Schedule {
  import opened Wrappers
  import opened Text
  import opened PathNames
  import opened Images

  /** The directory after a batch and the savings summed so far. */
  datatype Batch = Batch(tree: Tree, total: int)

  /** Every file of the sequence has a non-empty name. */
  predicate NamedFiles(order: seq<FilePath>)
  {
    forall i :: 0 <= i < |order| ==> order[i].name != ""
  }

  /** The images converted in `order`, each seeing the directory its
      predecessors left, with `tools(p)` the tool answers for candidate `p`. */
  function Fold(t: Tree, order: seq<FilePath>, tools: FilePath -> ToolAnswers): Batch
    requires NamedFiles(order)
    decreases |order|
  {
    if order == [] then Batch(t, 0)
    else
      var prev := Fold(t, order[..|order| - 1], tools);
      var p := order[|order| - 1];
      var step := ConvertStep(prev.tree, p, tools(p));
      Batch(step.tree, prev.total + step.saved)
  }

  predicate Distinct(order: seq<FilePath>)
  {
    forall i, j :: 0 <= i < j < |order| ==> order[i] != order[j]
  }

  /** A completion order of the worker pool: each candidate exactly once. */
  predicate IsSchedule(order: seq<FilePath>, cands: set<FilePath>)
  {
    Distinct(order)
    && (forall i :: 0 <= i < |order| ==> order[i] in cands)
    && (forall p :: p in cands ==> p in order)
  }

  /** No two candidates can be renamed or encoded onto the same file. */
  predicate DistinctStems(cands: set<FilePath>)
  {
    forall p, q :: p in cands && q in cands && p != q ==> StemKey(p) != StemKey(q)
  }

  /** What candidate `p` saves when it is converted on its own. */
  function ImageTerm(t: Tree, p: FilePath, tools: FilePath -> ToolAnswers): int
  {
    if p in t then ImageSavings(tools(p).mime, t[p], tools(p).encoder) else 0
  }

  /** The sum of what each image of `order` saves on its own. */
  function IndependentTotal(t: Tree, order: seq<FilePath>, tools: FilePath -> ToolAnswers): int
    decreases |order|
  {
    if order == [] then 0
    else IndependentTotal(t, order[..|order| - 1], tools) + ImageTerm(t, order[|order| - 1], tools)
  }

  /** `k` has a stem key none of the files in `order` has. */
  predicate Untouched(order: seq<FilePath>, k: FilePath)
  {
    forall i :: 0 <= i < |order| ==> StemKey(order[i]) != StemKey(k)
  }

  /** Two directories hold the same file `k`, with the same size. */
  predicate Agree(t1: Tree, t2: Tree, k: FilePath)
  {
    (k in t1 <==> k in t2) && (k in t1 ==> t1[k] == t2[k])
  }

  /** The front of an order with distinct stems has distinct stems, none of them the last one's. */
  lemma OrderFront(order: seq<FilePath>)
    requires order != [] && NamedFiles(order)
    requires forall i, j :: 0 <= i < j < |order| ==> StemKey(order[i]) != StemKey(order[j])
    ensures var pre := order[..|order| - 1];
      && NamedFiles(pre)
      && (forall i, j :: 0 <= i < j < |pre| ==> StemKey(pre[i]) != StemKey(pre[j]))
      && Untouched(pre, order[|order| - 1])
  {
    assert forall i :: 0 <= i < |order| - 1 ==> order[..|order| - 1][i] == order[i];
  }

  /** A file no image of `order` touches is not touched by its front or its last image. */
  lemma UntouchedFront(order: seq<FilePath>, k: FilePath)
    requires order != [] && Untouched(order, k)
    ensures Untouched(order[..|order| - 1], k) && StemKey(order[|order| - 1]) != StemKey(k)
  {
    assert forall i :: 0 <= i < |order| - 1 ==> order[..|order| - 1][i] == order[i];
  }

  /** An image step keeps every file of another stem as `t` had it. */
  lemma StepKeepsAgree(t: Tree, u: Tree, p: FilePath, a: ToolAnswers, k: FilePath)
    requires p.name != "" && StemKey(k) != StemKey(p) && Agree(t, u, k)
    ensures Agree(t, ConvertStep(u, p, a).tree, k)
  {
    ConvertStepFrame(u, p, a, k);
  }

  /** An image whose file is as in `t` saves what it saves on its own in `t`. */
  lemma StepTerm(t: Tree, u: Tree, p: FilePath, tools: FilePath -> ToolAnswers)
    requires p.name != "" && Agree(t, u, p)
    ensures ConvertStep(u, p, tools(p)).saved == ImageTerm(t, p, tools)
  {
    ConvertStepSavings(u, p, tools(p));
  }

  /** With pairwise different stems, every image sees its own file unchanged,
      so the batch total is the sum of the independent savings, and every file
      whose stem no image has is left as it was. */
  lemma {:induction false} FoldIsIndependent(t: Tree, order: seq<FilePath>, tools: FilePath -> ToolAnswers)
    requires NamedFiles(order)
    requires forall i, j :: 0 <= i < j < |order| ==> StemKey(order[i]) != StemKey(order[j])
    ensures Fold(t, order, tools).total == IndependentTotal(t, order, tools)
    ensures forall k :: Untouched(order, k) ==> Agree(t, Fold(t, order, tools).tree, k)
    decreases |order|
  {
    if order != [] {
      var pre := order[..|order| - 1];
      var p := order[|order| - 1];
      OrderFront(order);
      FoldIsIndependent(t, pre, tools);
      var prev := Fold(t, pre, tools);
      StepTerm(t, prev.tree, p, tools);
      forall k | Untouched(order, k) ensures Agree(t, Fold(t, order, tools).tree, k) {
        UntouchedFront(order, k);
        StepKeepsAgree(t, prev.tree, p, tools(p), k);
      }
    }
  }

  lemma {:induction false} IndependentTotalConcat(t: Tree, u: seq<FilePath>, v: seq<FilePath>, tools: FilePath -> ToolAnswers)
    ensures IndependentTotal(t, u + v, tools) == IndependentTotal(t, u, tools) + IndependentTotal(t, v, tools)
    decreases |v|
  {
    if v == [] {
      assert u + v == u;
    } else {
      var v' := v[..|v| - 1];
      assert (u + v)[..|u + v| - 1] == u + v';
      assert (u + v)[|u + v| - 1] == v[|v| - 1];
      IndependentTotalConcat(t, u, v', tools);
    }
  }

  /** Taking element `i` out of `b` takes its saving out of the sum. */
  lemma IndependentTotalRemove(t: Tree, b: seq<FilePath>, i: nat, tools: FilePath -> ToolAnswers)
    requires i < |b|
    ensures IndependentTotal(t, b, tools) == IndependentTotal(t, b[..i] + b[i + 1..], tools) + ImageTerm(t, b[i], tools)
  {
    assert b == b[..i] + [b[i]] + b[i + 1..];
    IndependentTotalConcat(t, b[..i] + [b[i]], b[i + 1..], tools);
    IndependentTotalConcat(t, b[..i], [b[i]], tools);
    IndependentTotalConcat(t, b[..i], b[i + 1..], tools);
    assert IndependentTotal(t, [b[i]], tools) == ImageTerm(t, b[i], tools);
  }

  /** Removing the last element of `a` and an equal element `b[i]` keeps the multisets equal. */
  lemma MultisetRemove(a: seq<FilePath>, b: seq<FilePath>, i: nat)
    requires a != [] && i < |b| && b[i] == a[|a| - 1] && multiset(a) == multiset(b)
    ensures multiset(a[..|a| - 1]) == multiset(b[..i] + b[i + 1..])
  {
    var x := a[|a| - 1];
    var a', b' := a[..|a| - 1], b[..i] + b[i + 1..];
    assert a == a' + [x];
    assert b == b[..i] + [x] + b[i + 1..];
    assert multiset(b) == multiset(b') + multiset{x};
    assert multiset(a) == multiset(a') + multiset{x};
    forall y ensures multiset(a')[y] == multiset(b')[y] {
      assert multiset(a)[y] == multiset(a')[y] + multiset{x}[y];
      assert multiset(b)[y] == multiset(b')[y] + multiset{x}[y];
    }
  }

  /** The sum of independent savings is the same for any rearrangement. */
  lemma {:induction false} IndependentTotalPermutation(t: Tree, a: seq<FilePath>, b: seq<FilePath>, tools: FilePath -> ToolAnswers)
    requires multiset(a) == multiset(b)
    ensures IndependentTotal(t, a, tools) == IndependentTotal(t, b, tools)
    decreases |a|
  {
    if a == [] {
      assert |b| == |multiset(b)| == 0;
    } else {
      var x := a[|a| - 1];
      assert x in multiset(b);
      var i :| 0 <= i < |b| && b[i] == x;
      MultisetRemove(a, b, i);
      IndependentTotalPermutation(t, a[..|a| - 1], b[..i] + b[i + 1..], tools);
      IndependentTotalRemove(t, b, i, tools);
    }
  }

  /** A sequence without repetitions holds each of its elements once. */
  lemma {:induction false} DistinctMultiplicity(s: seq<FilePath>, x: FilePath)
    requires Distinct(s)
    ensures multiset(s)[x] == if x in s then 1 else 0
    decreases |s|
  {
    if s != [] {
      var s' := s[..|s| - 1];
      assert s == s' + [s[|s| - 1]];
      assert Distinct(s');
      DistinctMultiplicity(s', x);
      if x == s[|s| - 1] {
        assert x !in s';
      }
    }
  }

  /** Any two completion orders of the same candidates are rearrangements of each other. */
  lemma SchedulesArePermutations(a: seq<FilePath>, b: seq<FilePath>, cands: set<FilePath>)
    requires IsSchedule(a, cands) && IsSchedule(b, cands)
    ensures multiset(a) == multiset(b)
  {
    forall x ensures multiset(a)[x] == multiset(b)[x] {
      DistinctMultiplicity(a, x);
      DistinctMultiplicity(b, x);
    }
  }

  /** The batch total of `convert_images` is the same in every completion
      order, namely the sum of what each candidate saves on its own, provided
      no two candidates of the archive share a stem. */
  lemma CompletionOrderIrrelevant(t: Tree, o1: seq<FilePath>, o2: seq<FilePath>, tools: FilePath -> ToolAnswers)
    requires DistinctStems(Candidates(t))
    requires IsSchedule(o1, Candidates(t)) && IsSchedule(o2, Candidates(t))
    ensures NamedFiles(o1) && NamedFiles(o2)
    ensures Fold(t, o1, tools).total == IndependentTotal(t, o1, tools)
    ensures Fold(t, o1, tools).total == Fold(t, o2, tools).total
  {
    FoldIsIndependent(t, o1, tools);
    FoldIsIndependent(t, o2, tools);
    SchedulesArePermutations(o1, o2, Candidates(t));
    IndependentTotalPermutation(t, o1, o2, tools);
  }

  // The example of StemCollisionMakesOrderMatter: `p.jpeg` holds a JPEG of
  // 100 bytes, `p.jpg` one of 50 bytes, and the encoder turns either into 10 bytes.
  const CollidingJpeg := FilePath("ch1", "p.jpeg")
  const CollidingJpg := FilePath("ch1", "p.jpg")
  const CollidingJxl := FilePath("ch1", "p.jxl")
  const CollidingTree: Tree := map[CollidingJpeg := 100, CollidingJpg := 50]
  const JpegThenJpg: seq<FilePath> := [CollidingJpeg, CollidingJpg]
  const JpgThenJpeg: seq<FilePath> := [CollidingJpg, CollidingJpeg]
  const TenBytes := ToolAnswers(JPEG, "sRGB", EncoderRun(0, Some(10)))
  const AlwaysTen: FilePath -> ToolAnswers := (p: FilePath) => TenBytes

  lemma CollidingJpegRenamed()
    ensures CorrectedPath(CollidingJpeg, JPEG) == CollidingJpg
  {
    LastDotAt("p.jpeg", 1);
    assert Suffix("p.jpeg") == ".jpeg";
    assert Lower(".jpeg")[2] == 'p';
  }

  lemma CollidingJpgKept()
    ensures CorrectedPath(CollidingJpg, JPEG) == CollidingJpg
    ensures JxlPath(CollidingJpg) == CollidingJxl
  {
    LastDotAt("p.jpg", 1);
    assert Suffix("p.jpg") == ".jpg";
    assert Lower(".jpg") == ".jpg";
  }

  lemma CollidingCandidates()
    ensures Candidates(CollidingTree) == {CollidingJpeg, CollidingJpg}
  {
    assert IsCandidateName("p.jpeg") && IsCandidateName("p.jpg");
  }

  lemma CollidingDistinct()
    ensures CollidingJpeg != CollidingJpg && CollidingJpeg != CollidingJxl && CollidingJpg != CollidingJxl
  {
    assert CollidingJpeg.name[4] != CollidingJpg.name[4];
    assert CollidingJpeg.name[3] != CollidingJxl.name[3];
    assert CollidingJpg.name[3] != CollidingJxl.name[3];
  }

  /** A JPEG whose suffix is already right is encoded to `j` and removed. */
  lemma EncodeInPlace(t: Tree, b: FilePath, j: FilePath)
    requires b.name != "" && b in t && CorrectedPath(b, JPEG) == b && JxlPath(b) == j && b != j
    ensures ConvertStep(t, b, TenBytes) == StepResult(t[j := 10] - {b}, t[b] as int - 10, NoPrep)
  {
    ConvertStepAt(t, b, TenBytes);
    assert Rename(t, b, b) == t;
  }

  /** A JPEG with a misspelt suffix is first renamed to `b`, then encoded to `j`
      and removed. */
  lemma EncodeRenamed(t: Tree, a: FilePath, b: FilePath, j: FilePath)
    requires a.name != "" && a in t && a != b && CorrectedPath(a, JPEG) == b && JxlPath(b) == j && b != j
    ensures ConvertStep(t, a, TenBytes) == StepResult((t - {a})[b := t[a]][j := 10] - {b}, t[a] as int - 10, NoPrep)
  {
    ConvertStepAt(t, a, TenBytes);
    assert Rename(t, a, b) == (t - {a})[b := t[a]];
  }

  /** The directories the example passes through, for any three distinct names. */
  lemma ThreeNames(a: FilePath, b: FilePath, j: FilePath, x: nat, y: nat)
    requires a != b && a != j && b != j
    ensures (map[a := x, b := y] - {a})[b := x][j := 10] - {b} == map[j := 10]
    ensures map[a := x, b := y][j := 10] - {b} == map[a := x, j := 10]
    ensures (map[a := x, j := 10] - {a})[b := x][j := 10] - {b} == map[j := 10]
  {
  }

  /** `p.jpeg` converted on the example directory: renamed onto `p.jpg`, whose
      content it replaces, then encoded and removed. */
  lemma JpegStepFirst()
    ensures ConvertStep(CollidingTree, CollidingJpeg, AlwaysTen(CollidingJpeg))
         == StepResult(map[CollidingJxl := 10], 90, NoPrep)
  {
    CollidingJpegRenamed();
    CollidingJpgKept();
    CollidingDistinct();
    EncodeRenamed(CollidingTree, CollidingJpeg, CollidingJpg, CollidingJxl);
    ThreeNames(CollidingJpeg, CollidingJpg, CollidingJxl, 100, 50);
  }

  /** `p.jpg` converted on the example directory: encoded and removed. */
  lemma JpgStepFirst()
    ensures ConvertStep(CollidingTree, CollidingJpg, AlwaysTen(CollidingJpg))
         == StepResult(map[CollidingJpeg := 100, CollidingJxl := 10], 40, NoPrep)
  {
    CollidingJpgKept();
    CollidingDistinct();
    EncodeInPlace(CollidingTree, CollidingJpg, CollidingJxl);
    ThreeNames(CollidingJpeg, CollidingJpg, CollidingJxl, 100, 50);
  }

  /** `p.jpeg` after `p.jpg`: renamed to the free name `p.jpg`, encoded onto
      the existing `p.jxl` and removed. */
  lemma JpegStepSecond()
    ensures ConvertStep(map[CollidingJpeg := 100, CollidingJxl := 10], CollidingJpeg, AlwaysTen(CollidingJpeg))
         == StepResult(map[CollidingJxl := 10], 90, NoPrep)
  {
    CollidingJpegRenamed();
    CollidingJpgKept();
    CollidingDistinct();
    EncodeRenamed(map[CollidingJpeg := 100, CollidingJxl := 10], CollidingJpeg, CollidingJpg, CollidingJxl);
    ThreeNames(CollidingJpeg, CollidingJpg, CollidingJxl, 100, 50);
  }

  /** `p.jpg` after `p.jpeg`: the file is no longer there, so nothing happens. */
  lemma JpgStepSecond()
    ensures ConvertStep(map[CollidingJxl := 10], CollidingJpg, AlwaysTen(CollidingJpg))
         == StepResult(map[CollidingJxl := 10], 0, NoPrep)
  {
    assert CollidingJpg !in map[CollidingJxl := 10] by {
      assert CollidingJpg.name[3] != CollidingJxl.name[3];
    }
  }

  /** Two steps of a batch, one after the other. */
  lemma FoldPair(t: Tree, p: FilePath, q: FilePath, tools: FilePath -> ToolAnswers)
    requires p.name != "" && q.name != ""
    ensures NamedFiles([p, q])
    ensures Fold(t, [p, q], tools)
         == Batch(ConvertStep(ConvertStep(t, p, tools(p)).tree, q, tools(q)).tree,
                  ConvertStep(t, p, tools(p)).saved + ConvertStep(ConvertStep(t, p, tools(p)).tree, q, tools(q)).saved)
  {
    assert [p, q][..1] == [p] && [p][..0] == [];
    assert Fold(t, [], tools) == Batch(t, 0);
    assert Fold(t, [p], tools) == Batch(ConvertStep(t, p, tools(p)).tree, ConvertStep(t, p, tools(p)).saved);
  }

  /** `p.jpeg` first: it replaces `p.jpg`, is encoded and removed; `p.jpg` is then gone. */
  lemma JpegFirst()
    ensures Fold(CollidingTree, JpegThenJpg, AlwaysTen) == Batch(map[CollidingJxl := 10], 90)
  {
    FoldPair(CollidingTree, CollidingJpeg, CollidingJpg, AlwaysTen);
    JpegStepFirst();
    JpgStepSecond();
  }

  /** `p.jpg` first: it is encoded and removed; then `p.jpeg` takes its name,
      is encoded onto the same `p.jxl` and removed too. */
  lemma JpgFirst()
    ensures Fold(CollidingTree, JpgThenJpeg, AlwaysTen) == Batch(map[CollidingJxl := 10], 130)
  {
    FoldPair(CollidingTree, CollidingJpg, CollidingJpeg, AlwaysTen);
    JpgStepFirst();
    JpegStepSecond();
  }

  /** Both orders of the two colliding candidates are completion orders. */
  lemma CollidingSchedules()
    ensures IsSchedule(JpegThenJpg, Candidates(CollidingTree))
    ensures IsSchedule(JpgThenJpeg, Candidates(CollidingTree))
  {
    CollidingCandidates();
    assert CollidingJpeg != CollidingJpg by {
      assert CollidingJpeg.name[4] != CollidingJpg.name[4];
    }
  }

  /** Two candidates with one stem: `p.jpeg` is renamed onto `p.jpg`, and
      both encode to `p.jxl`. The total depends on which finishes first, and
      either way only one image is left. */
  lemma StemCollisionMakesOrderMatter()
    ensures IsSchedule(JpegThenJpg, Candidates(CollidingTree))
    ensures IsSchedule(JpgThenJpeg, Candidates(CollidingTree))
    ensures Fold(CollidingTree, JpegThenJpg, AlwaysTen).total
         != Fold(CollidingTree, JpgThenJpeg, AlwaysTen).total
    ensures |Fold(CollidingTree, JpegThenJpg, AlwaysTen).tree| == 1
    ensures |Fold(CollidingTree, JpgThenJpeg, AlwaysTen).tree| == 1
  {
    CollidingSchedules();
    JpegFirst();
    JpgFirst();
    assert |map[CollidingJxl := 10]| == 1;
  }
}
