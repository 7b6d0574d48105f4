// The driver `preprocessLocJsonFiles`: build the ignore set, walk the
// discovered files in order, skip the ignored ones, render every other one
// and name its output after the mirrored path with `.d.ts` appended.
module Preprocessor {
  import opened Wrappers
  import opened Stub

  type Path = string

  // Node's path functions, left uninterpreted: the model fixes only how the
  // driver combines them.
  datatype PathOps = PathOps(
    isAbsolute: Path -> bool,
    resolve: Path -> Path,              // path.resolve(p)
    resolveFrom: (Path, Path) -> Path,  // path.resolve(base, p)
    relative: (Path, Path) -> Path      // path.relative(from, to)
  )

  datatype Options = Options(
    srcFolder: Path,
    generatedTsFolder: Path,
    filesToIgnore: Option<seq<Path>>
  )

  // One stub the run writes: where, and which lines (joined with the
  // platform's line ending when written).
  datatype GeneratedFile = GeneratedFile(path: Path, lines: seq<string>)

  // A run either handles every selected file, or stops at the first file
  // that does not load and validate; the stubs written before it remain.
  datatype Outcome =
    | Completed(written: seq<GeneratedFile>)
    | Aborted(written: seq<GeneratedFile>, offending: Path)

  const OutputSuffix: string := ".d.ts"

  predicate EndsWith(s: string, suffix: string) {
    |suffix| <= |s| && s[|s| - |suffix|..] == suffix
  }

  function IgnoreList(options: Options): seq<Path> {
    match options.filesToIgnore
    case None => []
    case Some(files) => files
  }

  // An ignore entry as compared: absolute entries as given, relative ones
  // resolved against the source folder.
  function IgnoreKey(ops: PathOps, srcFolder: Path, f: Path): Path {
    if ops.isAbsolute(f) then f else ops.resolveFrom(srcFolder, f)
  }

  function IgnoreSet(ops: PathOps, options: Options): set<Path> {
    set f | f in IgnoreList(options) :: IgnoreKey(ops, options.srcFolder, f)
  }

  // The files the loop renders, in discovery order: each discovered path
  // resolved, and kept unless it is in the ignore set.
  function Selected(ops: PathOps, ignore: set<Path>, discovered: seq<Path>): (sel: seq<Path>)
    ensures |sel| <= |discovered|
    ensures forall k :: 0 <= k < |sel| ==> sel[k] !in ignore
  {
    if |discovered| == 0 then []
    else
      var p := ops.resolve(discovered[0]);
      (if p in ignore then [] else [p]) + Selected(ops, ignore, discovered[1..])
  }

  // Selection distributes over concatenation: it keeps discovery order and
  // decides each discovered file on its own.
  lemma {:induction false} SelectedAppend(ops: PathOps, ignore: set<Path>, a: seq<Path>, b: seq<Path>)
    ensures Selected(ops, ignore, a + b) == Selected(ops, ignore, a) + Selected(ops, ignore, b)
    decreases |a|
  {
    if |a| > 0 {
      assert (a + b)[1..] == a[1..] + b;
      SelectedAppend(ops, ignore, a[1..], b);
    } else {
      assert a + b == b;
    }
  }

  // A path is rendered if and only if it is the resolved form of some
  // discovered file and is not in the ignore set.
  lemma {:induction false} SelectedMembership(ops: PathOps, ignore: set<Path>, discovered: seq<Path>, p: Path)
    ensures p in Selected(ops, ignore, discovered) <==>
      p !in ignore && exists i :: 0 <= i < |discovered| && ops.resolve(discovered[i]) == p
    decreases |discovered|
  {
    if |discovered| > 0 {
      SelectedMembership(ops, ignore, discovered[1..], p);
      if exists i :: 0 <= i < |discovered| && ops.resolve(discovered[i]) == p {
        var i :| 0 <= i < |discovered| && ops.resolve(discovered[i]) == p;
        if i > 0 {
          assert ops.resolve(discovered[1..][i - 1]) == p;
        }
      }
      if exists i :: 0 <= i < |discovered[1..]| && ops.resolve(discovered[1..][i]) == p {
        var i :| 0 <= i < |discovered[1..]| && ops.resolve(discovered[1..][i]) == p;
        assert ops.resolve(discovered[i + 1]) == p;
      }
    }
  }

  // A file listed in `filesToIgnore`, given absolute or relative to the
  // source folder, is never rendered.
  lemma ListedFileNeverSelected(ops: PathOps, options: Options, discovered: seq<Path>, f: Path)
    requires f in IgnoreList(options)
    ensures IgnoreKey(ops, options.srcFolder, f) !in Selected(ops, IgnoreSet(ops, options), discovered)
  {
    var ignore := IgnoreSet(ops, options);
    assert IgnoreKey(ops, options.srcFolder, f) in ignore;
    SelectedMembership(ops, ignore, discovered, IgnoreKey(ops, options.srcFolder, f));
  }

  // The input's place in the output tree: its path relative to the source
  // folder, resolved against the output folder.
  function Mirror(ops: PathOps, options: Options, p: Path): Path {
    ops.resolveFrom(options.generatedTsFolder, ops.relative(options.srcFolder, p))
  }

  function OutputPath(ops: PathOps, options: Options, p: Path): (out: Path)
    ensures EndsWith(out, OutputSuffix)
    ensures |out| == |Mirror(ops, options, p)| + |OutputSuffix|
    ensures out[..|out| - |OutputSuffix|] == Mirror(ops, options, p)
  {
    Mirror(ops, options, p) + OutputSuffix
  }

  // Two inputs share an output file exactly when they share a mirrored path.
  lemma OutputPathInjective(ops: PathOps, options: Options, p: Path, q: Path)
    ensures OutputPath(ops, options, p) == OutputPath(ops, options, q) <==>
      Mirror(ops, options, p) == Mirror(ops, options, q)
  {
    var a, b := OutputPath(ops, options, p), OutputPath(ops, options, q);
    if a == b {
      assert a[..|a| - |OutputSuffix|] == b[..|b| - |OutputSuffix|];
    }
  }

  // The stub written for a selected file with the given entries.
  function Emit(ops: PathOps, options: Options, p: Path, entries: seq<Entry>): GeneratedFile {
    GeneratedFile(OutputPath(ops, options, p), Render(entries))
  }

  // `written` is what the loop emits for the first |written| selected files,
  // all of which loaded.
  predicate WrittenFor(ops: PathOps, options: Options, load: Path -> Option<seq<Entry>>,
                       sel: seq<Path>, written: seq<GeneratedFile>)
  {
    && |written| <= |sel|
    && forall k :: 0 <= k < |written| ==>
         load(sel[k]).Some? && written[k] == Emit(ops, options, sel[k], load(sel[k]).value)
  }

  // What a run reports about the selected files `sel`: the stubs written
  // are those of a prefix of `sel`, in order; a completed run covers all of
  // `sel`, and an aborted one stops at the first file that did not load.
  predicate Reports(ops: PathOps, options: Options, load: Path -> Option<seq<Entry>>,
                    sel: seq<Path>, outcome: Outcome)
  {
    && WrittenFor(ops, options, load, sel, outcome.written)
    && (outcome.Completed? ==> |outcome.written| == |sel|)
    && (outcome.Aborted? ==>
          && |outcome.written| < |sel|
          && sel[|outcome.written|] == outcome.offending
          && load(outcome.offending).None?)
  }

  // The run over an already discovered file list. `load` stands for reading
  // and validating one file against the schema: None when that fails.
  method PreprocessLocJsonFiles(ops: PathOps, options: Options, discovered: seq<Path>,
                                load: Path -> Option<seq<Entry>>)
    returns (outcome: Outcome)
    ensures Reports(ops, options, load, Selected(ops, IgnoreSet(ops, options), discovered), outcome)
    ensures forall k :: 0 <= k < |outcome.written| ==>
      EndsWith(outcome.written[k].path, OutputSuffix)
  {
    var ignore := IgnoreSet(ops, options);
    ghost var sel := Selected(ops, ignore, discovered);
    var written: seq<GeneratedFile> := [];
    var i := 0;
    while i < |discovered|
      invariant 0 <= i <= |discovered|
      invariant |written| == |Selected(ops, ignore, discovered[..i])|
      invariant WrittenFor(ops, options, load, Selected(ops, ignore, discovered[..i]), written)
    {
      var p := ops.resolve(discovered[i]);
      SelectedStep(ops, ignore, discovered, i);
      if p !in ignore {
        match load(p)
        case None =>
          SelectedPrefix(ops, ignore, discovered, i + 1);
          WrittenForPrefix(ops, options, load, Selected(ops, ignore, discovered[..i]), sel, written);
          outcome := Aborted(written, p);
          WrittenPathsEndWithSuffix(ops, options, load, sel, outcome.written);
          return;
        case Some(entries) =>
          var lines := Render(entries);
          WrittenForExtend(ops, options, load, Selected(ops, ignore, discovered[..i]), written, p, entries);
          written := written + [GeneratedFile(OutputPath(ops, options, p), lines)];
      }
      i := i + 1;
    }
    assert discovered[..i] == discovered;
    outcome := Completed(written);
    WrittenPathsEndWithSuffix(ops, options, load, sel, outcome.written);
  }

  lemma WrittenForPrefix(ops: PathOps, options: Options, load: Path -> Option<seq<Entry>>,
                         sel: seq<Path>, sel': seq<Path>, written: seq<GeneratedFile>)
    requires sel <= sel'
    requires WrittenFor(ops, options, load, sel, written)
    ensures WrittenFor(ops, options, load, sel', written)
  {
    forall k | 0 <= k < |written|
      ensures sel'[k] == sel[k]
    {
    }
  }

  lemma WrittenPathsEndWithSuffix(ops: PathOps, options: Options, load: Path -> Option<seq<Entry>>,
                                  sel: seq<Path>, written: seq<GeneratedFile>)
    requires WrittenFor(ops, options, load, sel, written)
    ensures forall k :: 0 <= k < |written| ==> EndsWith(written[k].path, OutputSuffix)
  {
    forall k | 0 <= k < |written|
      ensures EndsWith(written[k].path, OutputSuffix)
    {
      assert written[k].path == OutputPath(ops, options, sel[k]);
    }
  }

  lemma SelectedStep(ops: PathOps, ignore: set<Path>, discovered: seq<Path>, i: nat)
    requires i < |discovered|
    ensures var p := ops.resolve(discovered[i]);
      Selected(ops, ignore, discovered[..i + 1]) ==
        Selected(ops, ignore, discovered[..i]) + (if p in ignore then [] else [p])
  {
    SelectedAppend(ops, ignore, discovered[..i], [discovered[i]]);
    assert discovered[..i + 1] == discovered[..i] + [discovered[i]];
    assert [discovered[i]][1..] == [];
  }

  lemma WrittenForExtend(ops: PathOps, options: Options, load: Path -> Option<seq<Entry>>,
                         sel: seq<Path>, written: seq<GeneratedFile>, p: Path, entries: seq<Entry>)
    requires |written| == |sel|
    requires WrittenFor(ops, options, load, sel, written)
    requires load(p) == Some(entries)
    ensures WrittenFor(ops, options, load, sel + [p], written + [Emit(ops, options, p, entries)])
  {
    var sel', written' := sel + [p], written + [Emit(ops, options, p, entries)];
    forall k | 0 <= k < |written'|
      ensures load(sel'[k]).Some? && written'[k] == Emit(ops, options, sel'[k], load(sel'[k]).value)
    {
      if k < |written| {
        assert sel'[k] == sel[k] && written'[k] == written[k];
      }
    }
  }

  lemma SelectedPrefix(ops: PathOps, ignore: set<Path>, discovered: seq<Path>, n: nat)
    requires n <= |discovered|
    ensures Selected(ops, ignore, discovered[..n]) <= Selected(ops, ignore, discovered)
  {
    assert discovered == discovered[..n] + discovered[n..];
    SelectedAppend(ops, ignore, discovered[..n], discovered[n..]);
  }

}
