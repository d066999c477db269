/** The stateful side of cbzxl.py: the extraction directory of one archive,
    which `convert_single_image` changes file by file, and the library of
    archives together with the `converted_archives` table, which
    `process_cbz` and `main` update. */
module Cbzxl {
  import opened Wrappers
  import opened Text
  import opened PathNames
  import opened Images
  import opened Schedule

  /** The temporary directory one archive is extracted into. */
  class WorkingTree {
    var files: Tree

    /** `zipfile.extractall`: the directory holds what the archive holds. */
    constructor (contents: Tree)
      ensures files == contents
    {
      files := contents;
    }

    /** The loop of `process_cbz` that unlinks every `*.converted` leftover. */
    method RemoveLeftovers()
      modifies this
      ensures files == WithoutLeftovers(old(files))
    {
      var leftovers := set k | k in files && EndsWith(k.name, ".converted");
      while leftovers != {}
        invariant leftovers <= old(files).Keys
        invariant forall k :: k in leftovers ==> EndsWith(k.name, ".converted")
        invariant files == map k | k in old(files) && (!EndsWith(k.name, ".converted") || k in leftovers) :: old(files)[k]
        decreases leftovers
      {
        var k :| k in leftovers;
        files := files - {k};
        leftovers := leftovers - {k};
      }
    }

    /** `correct_extension`: renames the file when the lower-cased suffix
        disagrees with the extension mapped from its type. */
    method CorrectExtension(p: FilePath, mime: string) returns (q: FilePath)
      requires p in files && p.name != ""
      modifies this
      ensures q == CorrectedPath(p, mime)
      ensures files == Rename(old(files), p, q)
    {
      q := p;
      var correct := ExtensionFor(mime);
      assert NeedsRename(p.name, mime) <==> correct.Some? && Lower(Suffix(p.name)) != correct.value;
      if correct.Some? && Lower(Suffix(p.name)) != correct.value {
        q := FilePath(p.dir, WithSuffix(p.name, correct.value));
        assert q == CorrectedPath(p, mime);
        assert q != p by {
          SuffixOfWithSuffix(p.name, correct.value);
        }
        files := (files - {p})[q := files[p]];
      }
    }

    /** The colour fix of `convert_single_image`: `magick` strips a PNG's
        profile and converts a CMYK JPEG to sRGB; it does not touch the file list. */
    method ColourFix(mime: string, colorspace: string) returns (prep: Prep)
      ensures prep == Preprocessing(mime, colorspace)
    {
      prep := NoPrep;
      if mime == PNG {
        prep := StripProfile;
      } else if mime == JPEG {
        if colorspace == "CMYK" {
          prep := ToSrgb;
        }
      }
    }

    /** `cjxl` writing `jxl`: the file exists afterwards with the size it
        produced, or not at all. */
    method RunEncoder(jxl: FilePath, output: Option<nat>)
      modifies this
      ensures files == AfterEncoder(old(files), jxl, output)
    {
      match output {
        case Some(size) => files := files[jxl := size];
        case None => files := files - {jxl};
      }
    }

    /** `convert_single_image` for the candidate `p`, with the tool answers `a`. */
    method ConvertSingleImage(p: FilePath, a: ToolAnswers) returns (saved: int, prep: Prep)
      requires p.name != ""
      modifies this
      ensures files == ConvertStep(old(files), p, a).tree
      ensures saved == ConvertStep(old(files), p, a).saved
      ensures prep == ConvertStep(old(files), p, a).prep
    {
      if p !in files || !IsConvertible(a.mime) {
        return 0, NoPrep;
      }
      ConvertStepAt(files, p, a);
      var img := CorrectExtension(p, a.mime);
      ghost var renamed := files;
      var jxl := JxlPath(img);
      var origSize: int := files[img];
      prep := ColourFix(a.mime, a.colorspace);
      RunEncoder(jxl, a.encoder.output);
      ghost var encoded := files;
      if a.encoder.exitCode == 0 && jxl in files {
        var jxlSize := files[jxl];
        files := files - {img};
        saved := origSize - jxlSize;
      } else {
        saved := 0;
      }
      assert files == if Succeeded(a.encoder) then encoded - {img} else encoded;
      assert files == AfterConversion(renamed, img, a.encoder);
    }

    /** `convert_images`: every candidate is converted once, in whatever order
        the worker pool completes them (`order`), and the results are summed. */
    method ConvertImages(tools: FilePath -> ToolAnswers) returns (converted: bool, total: int, ghost order: seq<FilePath>)
      modifies this
      ensures IsSchedule(order, Candidates(old(files))) && NamedFiles(order)
      ensures files == Fold(old(files), order, tools).tree
      ensures total == Fold(old(files), order, tools).total
      ensures converted == (total > 0)
      ensures DistinctStems(Candidates(old(files))) ==> total == IndependentTotal(old(files), order, tools)
    {
      ghost var start := files;
      var pending := Candidates(files);
      order := [];
      total := 0;
      while pending != {}
        invariant Progress(order, pending, Candidates(start))
        invariant Fold(start, order, tools) == Batch(files, total)
        decreases pending
      {
        var p :| p in pending;
        ProgressStep(order, pending, Candidates(start), p);
        FoldSnoc(start, order, p, tools);
        var saved, _ := ConvertSingleImage(p, tools(p));
        order := order + [p];
        total := total + saved;
        pending := pending - {p};
      }
      ProgressDone(order, Candidates(start));
      if DistinctStems(Candidates(start)) {
        CompletionOrderIrrelevant(start, order, order, tools);
      }
      converted := total > 0;
    }
  }

  /** Part of the worker pool's work is done: `order` holds the candidates
      finished so far, each once, and `pending` the rest. */
  ghost predicate Progress(order: seq<FilePath>, pending: set<FilePath>, cands: set<FilePath>)
  {
    && pending <= cands
    && (forall p :: p in cands ==> p.name != "")
    && Distinct(order)
    && (forall i :: 0 <= i < |order| ==> order[i] in cands && order[i] !in pending)
    && (forall p :: p in cands ==> p in pending || p in order)
  }

  /** Finishing one pending candidate keeps the work accounted for. */
  lemma ProgressStep(order: seq<FilePath>, pending: set<FilePath>, cands: set<FilePath>, p: FilePath)
    requires Progress(order, pending, cands) && p in pending
    ensures Progress(order + [p], pending - {p}, cands)
    ensures NamedFiles(order) && p.name != ""
  {
    assert forall i :: 0 <= i < |order| ==> (order + [p])[i] == order[i];
  }

  /** With nothing pending, the finished candidates are a completion order of all of them. */
  lemma ProgressDone(order: seq<FilePath>, cands: set<FilePath>)
    requires Progress(order, {}, cands)
    ensures IsSchedule(order, cands) && NamedFiles(order)
  {
  }

  /** Folding one more image is one more step on the directory folded so far. */
  lemma FoldSnoc(t: Tree, order: seq<FilePath>, p: FilePath, tools: FilePath -> ToolAnswers)
    requires NamedFiles(order) && p.name != ""
    ensures NamedFiles(order + [p])
    ensures var prev := Fold(t, order, tools); var step := ConvertStep(prev.tree, p, tools(p));
      Fold(t, order + [p], tools) == Batch(step.tree, prev.total + step.saved)
  {
    assert (order + [p])[..|order|] == order;
  }

  /** The sum of a sequence of savings. */
  function Sum(s: seq<int>): int
  {
    if s == [] then 0 else Sum(s[..|s| - 1]) + s[|s| - 1]
  }

  /** How many results are non-zero, negative ones included. */
  function NonzeroCount(s: seq<int>): (n: nat)
    ensures n <= |s|
  {
    if s == [] then 0 else NonzeroCount(s[..|s| - 1]) + (if s[|s| - 1] != 0 then 1 else 0)
  }

  /** One more result adds to the sum, and to the count when it is non-zero. */
  lemma SumStep(s: seq<int>, x: int)
    ensures Sum(s + [x]) == Sum(s) + x
    ensures NonzeroCount(s + [x]) == NonzeroCount(s) + (if x != 0 then 1 else 0)
  {
    assert (s + [x])[..|s|] == s;
  }

  /** How many of the first `n` entries of `s` belong to `store`. */
  function CountIn(s: seq<string>, n: nat, store: set<string>): (c: nat)
    requires n <= |s|
    ensures c <= n
  {
    if n == 0 then 0 else CountIn(s, n - 1, store) + (if s[n - 1] in store then 1 else 0)
  }

  /** When every entry belongs to the store, all of them are counted. */
  lemma {:induction false} CountInAll(s: seq<string>, n: nat, store: set<string>)
    requires n <= |s|
    requires forall i :: 0 <= i < |s| ==> s[i] in store
    ensures CountIn(s, n, store) == n
  {
    if n > 0 {
      CountInAll(s, n - 1, store);
    }
  }

  /** The first `n` entries of `s` that are not in `store`, in order: the
      archives `main` hands to `process_cbz`. */
  function Pending(s: seq<string>, n: nat, store: set<string>): (r: seq<string>)
    requires n <= |s|
    ensures |r| + CountIn(s, n, store) == n
  {
    if n == 0 then []
    else
      var rest := Pending(s, n - 1, store);
      if s[n - 1] in store then rest else rest + [s[n - 1]]
  }

  /** Each pending archive is one of the first `n` entries and is not in the
      store; every such entry is pending. */
  lemma {:induction false} PendingEntries(s: seq<string>, n: nat, store: set<string>)
    requires n <= |s|
    ensures forall k :: 0 <= k < |Pending(s, n, store)| ==>
              Pending(s, n, store)[k] in s[..n] && Pending(s, n, store)[k] !in store
    ensures forall j :: 0 <= j < n && s[j] !in store ==> s[j] in Pending(s, n, store)
  {
    if n > 0 {
      PendingEntries(s, n - 1, store);
      assert s[..n] == s[..n - 1] + [s[n - 1]];
    }
  }

  /** What `process_cbz` did to an archive not yet processed: it converted the
      cleaned directory along the completion order `order`, returned the total
      `saved`, and left the archive as `after`, rewritten iff `saved > 0`. */
  ghost predicate ArchiveConverted(before: Tree, after: Tree, order: seq<FilePath>, saved: int,
                                   tools: FilePath -> ToolAnswers)
  {
    var work := WithoutLeftovers(before);
    && IsSchedule(order, Candidates(work)) && NamedFiles(order)
    && saved == Fold(work, order, tools).total
    && after == (if saved > 0 then Fold(work, order, tools).tree else before)
  }

  /** `base` with the archives in `visited` rewritten, in order, to `afters`. */
  ghost function Replay(base: map<string, Tree>, visited: seq<string>, afters: seq<Tree>): map<string, Tree>
    requires |afters| == |visited|
    decreases |visited|
  {
    if visited == [] then base
    else
      var n := |visited| - 1;
      Replay(base, visited[..n], afters[..n])[visited[n] := afters[n]]
  }

  /** Rewriting archives that exist adds no path and removes none. */
  lemma {:induction false} ReplayKeys(base: map<string, Tree>, visited: seq<string>, afters: seq<Tree>)
    requires |afters| == |visited|
    requires forall k :: 0 <= k < |visited| ==> visited[k] in base
    ensures forall r :: r in Replay(base, visited, afters) <==> r in base
    decreases |visited|
  {
    if visited != [] {
      var n := |visited| - 1;
      ReplayKeys(base, visited[..n], afters[..n]);
    }
  }

  /** An archive that was not rewritten keeps its contents. */
  lemma {:induction false} ReplayOutside(base: map<string, Tree>, visited: seq<string>, afters: seq<Tree>, r: string)
    requires |afters| == |visited| && r in base
    requires forall k :: 0 <= k < |visited| ==> visited[k] != r
    ensures r in Replay(base, visited, afters) && Replay(base, visited, afters)[r] == base[r]
    decreases |visited|
  {
    if visited != [] {
      var n := |visited| - 1;
      ReplayOutside(base, visited[..n], afters[..n], r);
    }
  }

  /** Each archive rewritten once ends up with its own new contents. */
  lemma {:induction false} ReplayAt(base: map<string, Tree>, visited: seq<string>, afters: seq<Tree>)
    requires |afters| == |visited|
    requires forall k, l :: 0 <= k < l < |visited| ==> visited[k] != visited[l]
    ensures forall k :: 0 <= k < |visited| ==>
              visited[k] in Replay(base, visited, afters) && Replay(base, visited, afters)[visited[k]] == afters[k]
    decreases |visited|
  {
    if visited != [] {
      var n := |visited| - 1;
      ReplayAt(base, visited[..n], afters[..n]);
      forall k | 0 <= k < n
        ensures visited[k] == visited[..n][k] && afters[k] == afters[..n][k]
      {
      }
    }
  }

  /** The archives `main` hands over are distinct when the listed paths are. */
  lemma {:induction false} PendingDistinct(s: seq<string>, n: nat, store: set<string>)
    requires n <= |s| && DistinctPaths(s)
    ensures forall k, l :: 0 <= k < l < |Pending(s, n, store)| ==> Pending(s, n, store)[k] != Pending(s, n, store)[l]
  {
    if n > 0 {
      PendingDistinct(s, n - 1, store);
      PendingEntries(s, n - 1, store);
      forall j | 0 <= j < n - 1
        ensures s[j] != s[n - 1]
      {
      }
    }
  }

  predicate DistinctPaths(s: seq<string>)
  {
    forall i, j :: 0 <= i < j < |s| ==> s[i] != s[j]
  }

  /** The paths among the first `n` entries of `s`. */
  function Firsts(s: seq<string>, n: nat): set<string>
    requires n <= |s|
  {
    if n == 0 then {} else Firsts(s, n - 1) + {s[n - 1]}
  }

  /** `Firsts` is the set of the first `n` entries. */
  lemma {:induction false} FirstsArePrefix(s: seq<string>, n: nat)
    requires n <= |s|
    ensures Firsts(s, n) == set j | 0 <= j < n :: s[j]
  {
    if n > 0 {
      FirstsArePrefix(s, n - 1);
      assert (set j | 0 <= j < n :: s[j]) == (set j | 0 <= j < n - 1 :: s[j]) + {s[n - 1]};
    }
  }

  /** Among distinct paths, a later entry is not among the first `n`. */
  lemma {:induction false} FirstsExclude(s: seq<string>, n: nat, i: nat)
    requires DistinctPaths(s) && n <= i < |s|
    ensures s[i] !in Firsts(s, n)
  {
    if n > 0 {
      FirstsExclude(s, n - 1, i);
    }
  }

  /** The bookkeeping of `main` after the first `i` listed archives:
      `skipped` of them were already in `store`, `visited` are the others in
      order and `seen` is every path looked at. */
  ghost predicate Tally(s: seq<string>, store: set<string>, i: nat, skipped: nat, visited: seq<string>, seen: set<string>)
  {
    && i <= |s|
    && skipped == CountIn(s, i, store)
    && visited == Pending(s, i, store)
    && seen == Firsts(s, i)
    && (forall k :: 0 <= k < |visited| ==> visited[k] in seen)
  }

  /** Before the first archive nothing has been looked at. */
  lemma TallyStart(s: seq<string>, store: set<string>)
    ensures Tally(s, store, 0, 0, [], {})
  {
  }

  /** Looking at one more archive: it has not been seen, and it is either
      skipped or handed over. */
  lemma TallyStep(s: seq<string>, store: set<string>, i: nat, skipped: nat, visited: seq<string>, seen: set<string>)
    requires i < |s| && DistinctPaths(s) && Tally(s, store, i, skipped, visited, seen)
    ensures s[i] !in seen
    ensures s[i] in store ==> Tally(s, store, i + 1, skipped + 1, visited, seen + {s[i]})
    ensures s[i] !in store ==> Tally(s, store, i + 1, skipped, visited + [s[i]], seen + {s[i]})
  {
    FirstsExclude(s, i, i);
  }

  /** The archives in `visited` were converted as `ArchiveConverted` says,
      from their contents in `base` to `afters`, and `now` is `base` with
      them rewritten. */
  ghost predicate Rewritten(base: map<string, Tree>, now: map<string, Tree>, visited: seq<string>, afters: seq<Tree>,
                            orders: seq<seq<FilePath>>, results: seq<int>, tools: string -> FilePath -> ToolAnswers)
  {
    && |results| == |visited| == |orders| == |afters|
    && (forall k :: 0 <= k < |visited| ==>
          visited[k] in base &&
          ArchiveConverted(base[visited[k]], afters[k], orders[k], results[k], tools(visited[k])))
    && now == Replay(base, visited, afters)
  }

  /** What the bookkeeping of `main` says once every listed archive has been looked at. */
  lemma RunOutcome(base: map<string, Tree>, now: map<string, Tree>, s: seq<string>, store: set<string>,
                   skipped: nat, visited: seq<string>, seen: set<string>, afters: seq<Tree>,
                   orders: seq<seq<FilePath>>, results: seq<int>, tools: string -> FilePath -> ToolAnswers)
    requires forall i :: 0 <= i < |s| ==> s[i] in base
    requires DistinctPaths(s)
    requires Tally(s, store, |s|, skipped, visited, seen)
    requires Rewritten(base, now, visited, afters, orders, results, tools)
    ensures forall k :: 0 <= k < |visited| ==>
              visited[k] in base && visited[k] in now &&
              ArchiveConverted(base[visited[k]], now[visited[k]], orders[k], results[k], tools(visited[k]))
    ensures now.Keys == base.Keys
    ensures forall r :: r in base && (r in store || r !in s) ==> now[r] == base[r]
  {
    ReplayKeys(base, visited, afters);
    PendingDistinct(s, |s|, store);
    ReplayAt(base, visited, afters);
    PendingEntries(s, |s|, store);
    assert s[..|s|] == s;
    forall r | r in base && (r in store || r !in s)
      ensures now[r] == base[r]
    {
      ReplayOutside(base, visited, afters, r);
    }
  }

  /** The middle of `process_cbz`: extract the archive into a fresh
      directory, delete the leftovers and convert the images. */
  method ExtractAndConvert(contents: Tree, tools: FilePath -> ToolAnswers)
    returns (converted: bool, saved: int, result: Tree, ghost order: seq<FilePath>)
    ensures IsSchedule(order, Candidates(WithoutLeftovers(contents))) && NamedFiles(order)
    ensures saved == Fold(WithoutLeftovers(contents), order, tools).total
    ensures result == Fold(WithoutLeftovers(contents), order, tools).tree
    ensures converted == (saved > 0)
  {
    var work := new WorkingTree(contents);
    work.RemoveLeftovers();
    converted, saved, order := work.ConvertImages(tools);
    result := work.files;
  }

  /** The archives on disk, by relative path, and the `converted_archives` table. */
  class Library {
    var processed: set<string>
    var archives: map<string, Tree>

    constructor (store: set<string>, disk: map<string, Tree>)
      ensures processed == store && archives == disk
    {
      processed := store;
      archives := disk;
    }

    /** `is_processed`: the path has a row in the table. */
    predicate IsProcessed(path: string)
      reads this
    {
      path in processed
    }

    /** `mark_processed`: `INSERT OR IGNORE`, so a path already present leaves the table as it is. */
    method MarkProcessed(path: string)
      modifies this
      ensures processed == old(processed) + {path}
      ensures old(IsProcessed(path)) ==> processed == old(processed)
      ensures IsProcessed(path) && archives == old(archives)
    {
      if path !in processed {
        processed := processed + {path};
      }
    }

    /** `process_cbz`: an archive already in the table is skipped with 0 and
        nothing changes. Otherwise it is extracted, cleaned of leftovers and
        converted; it is rewritten on disk only when the total is positive,
        and in every case it is marked processed and the total is returned. */
    method ProcessCbz(rel: string, tools: FilePath -> ToolAnswers) returns (saved: int, ghost order: seq<FilePath>)
      requires rel in archives
      modifies this
      ensures old(IsProcessed(rel)) ==> saved == 0 && processed == old(processed) && archives == old(archives)
      ensures !old(IsProcessed(rel)) ==>
        && rel in archives && archives == old(archives)[rel := archives[rel]]
        && ArchiveConverted(old(archives)[rel], archives[rel], order, saved, tools)
        && processed == old(processed) + {rel}
    {
      if IsProcessed(rel) {
        return 0, [];
      }
      var converted, result;
      converted, saved, result, order := ExtractAndConvert(archives[rel], tools);
      if converted {
        archives := archives[rel := result];
      }
      MarkProcessed(rel);
    }

    /** One archive `main` hands to `process_cbz`: the archives rewritten so
        far keep their contents, and `rel` joins them. */
    method ProcessNext(rel: string, tools: string -> FilePath -> ToolAnswers, ghost base: map<string, Tree>,
                       ghost visited: seq<string>, ghost afters: seq<Tree>,
                       ghost orders: seq<seq<FilePath>>, ghost results: seq<int>)
      returns (saved: int, ghost order: seq<FilePath>, ghost after: Tree)
      requires rel in base && !IsProcessed(rel)
      requires forall k :: 0 <= k < |visited| ==> visited[k] != rel
      requires Rewritten(base, archives, visited, afters, orders, results, tools)
      modifies this
      ensures processed == old(processed) + {rel}
      ensures Rewritten(base, archives, visited + [rel], afters + [after], orders + [order], results + [saved], tools)
    {
      ReplayKeys(base, visited, afters);
      ReplayOutside(base, visited, afters, rel);
      saved, order := ProcessCbz(rel, tools(rel));
      after := archives[rel];
      assert (visited + [rel])[..|visited|] == visited;
      assert (afters + [after])[..|afters|] == afters;
      ghost var visited', afters', orders', results' := visited + [rel], afters + [after], orders + [order], results + [saved];
      forall k | 0 <= k < |visited'|
        ensures visited'[k] in base &&
                ArchiveConverted(base[visited'[k]], afters'[k], orders'[k], results'[k], tools(visited'[k]))
      {
        if k < |visited| {
          assert visited'[k] == visited[k] && afters'[k] == afters[k];
          assert orders'[k] == orders[k] && results'[k] == results[k];
        }
      }
    }

    /** `main`: every archive is either skipped (already in the table) or
        handed to `process_cbz`. `visited` are the archives handed over, in
        order, `results` what `process_cbz` returned for each and `orders`
        the completion order of its images. */
    method Run(cbzFiles: seq<string>, tools: string -> FilePath -> ToolAnswers)
      returns (total: nat, convertedCount: nat, skippedCount: nat, totalSaved: int,
               ghost visited: seq<string>, ghost results: seq<int>, ghost orders: seq<seq<FilePath>>)
      requires forall i :: 0 <= i < |cbzFiles| ==> cbzFiles[i] in archives
      requires DistinctPaths(cbzFiles)
      modifies this
      ensures total == |cbzFiles| && skippedCount + |results| == total
      ensures skippedCount == CountIn(cbzFiles, |cbzFiles|, old(processed))
      ensures visited == Pending(cbzFiles, |cbzFiles|, old(processed)) && |results| == |visited| == |orders|
      ensures forall k :: 0 <= k < |visited| ==>
                visited[k] in old(archives) && visited[k] in archives &&
                ArchiveConverted(old(archives)[visited[k]], archives[visited[k]], orders[k], results[k], tools(visited[k]))
      ensures convertedCount == NonzeroCount(results) && totalSaved == Sum(results)
      ensures processed == old(processed) + (set i | 0 <= i < |cbzFiles| :: cbzFiles[i])
      ensures archives.Keys == old(archives).Keys
      ensures forall r :: r in old(archives) && (r in old(processed) || r !in cbzFiles) ==>
                archives[r] == old(archives)[r]
    {
      total := |cbzFiles|;
      convertedCount, skippedCount, totalSaved := 0, 0, 0;
      visited, results, orders := [], [], [];
      ghost var afters: seq<Tree> := [];
      ghost var seen: set<string> := {};
      var i := 0;
      TallyStart(cbzFiles, old(processed));
      while i < |cbzFiles|
        invariant 0 <= i <= |cbzFiles|
        invariant Tally(cbzFiles, old(processed), i, skippedCount, visited, seen)
        invariant Rewritten(old(archives), archives, visited, afters, orders, results, tools)
        invariant convertedCount == NonzeroCount(results) && totalSaved == Sum(results)
        invariant forall r :: r in processed <==> r in old(processed) || r in seen
      {
        var rel := cbzFiles[i];
        TallyStep(cbzFiles, old(processed), i, skippedCount, visited, seen);
        assert IsProcessed(rel) <==> rel in old(processed);
        ghost var skipped' := if rel in old(processed) then skippedCount + 1 else skippedCount;
        ghost var visited' := if rel in old(processed) then visited else visited + [rel];
        assert Tally(cbzFiles, old(processed), i + 1, skipped', visited', seen + {rel});
        if IsProcessed(rel) {
          skippedCount := skippedCount + 1;
        } else {
          var saved;
          ghost var order, after;
          saved, order, after := ProcessNext(rel, tools, old(archives), visited, afters, orders, results);
          SumStep(results, saved);
          visited, results, orders, afters := visited + [rel], results + [saved], orders + [order], afters + [after];
          if saved != 0 {
            convertedCount := convertedCount + 1;
            totalSaved := totalSaved + saved;
          }
        }
        assert skippedCount == skipped' && visited == visited';
        seen := seen + {rel};
        i := i + 1;
      }
      RunOutcome(old(archives), archives, cbzFiles, old(processed), skippedCount, visited, seen, afters, orders, results, tools);
      FirstsArePrefix(cbzFiles, |cbzFiles|);
      assert processed == old(processed) + seen;
    }
  }

  /** Running `main` a second time over the same archives skips all of them,
      converts nothing, saves nothing and leaves every archive as the first
      run left it (`afterFirst`). */
  method RerunSkipsEverything(lib: Library, cbzFiles: seq<string>, tools: string -> FilePath -> ToolAnswers)
    returns (convertedCount: nat, skippedCount: nat, totalSaved: int, ghost afterFirst: map<string, Tree>)
    requires forall i :: 0 <= i < |cbzFiles| ==> cbzFiles[i] in lib.archives
    requires DistinctPaths(cbzFiles)
    modifies lib
    ensures skippedCount == |cbzFiles| && convertedCount == 0 && totalSaved == 0
    ensures afterFirst.Keys == old(lib.archives).Keys && lib.archives == afterFirst
  {
    var _, _, _, _, _, _, _ := lib.Run(cbzFiles, tools);
    afterFirst := lib.archives;
    CountInAll(cbzFiles, |cbzFiles|, lib.processed);
    ghost var visited, results, orders;
    var total;
    total, convertedCount, skippedCount, totalSaved, visited, results, orders := lib.Run(cbzFiles, tools);
  }
}
