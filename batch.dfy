/**
 * The per-file pipeline of the script and the run over all files found:
 * extension filter, resize planning, name planning, then one converter call.
 * The converter is not run; each call the script would make is recorded.
 */
module Batch {
  import opened Wrappers
  import opened Exif
  import Decimal
  import Walker
  import Resize
  import Timestamp
  import opened Naming

  /** The command-line flags. */
  datatype Config = Config(resize: bool, rename: bool, nameMask: Option<string>, destDir: string)

  /** A regular file the walker found: its path, its final name component, that name's suffix and its tags. */
  datatype FileRecord = FileRecord(path: string, name: string, suffix: string, tags: Tags)

  /** Why a file was abandoned; each one corresponds to a message on the error stream. */
  datatype SkipReason =
    | UnsupportedExtension
    | MissingResizeTags(missing: seq<string>)
    | MissingDateTimeOriginal
    | MeaninglessDateTimeOriginal(value: string)

  /** One call `convert -resize <spec> <source> <dest>`. */
  datatype Conversion = Conversion(spec: Resize.Spec, source: string, dest: string)

  /**
   * What happens to one file: it is skipped, it is converted under a new name,
   * or its capture time cannot be parsed, which raises out of the script and ends the run.
   */
  datatype Outcome =
    | Skipped(reason: SkipReason)
    | Converted(call: Conversion, name: string)
    | Crashed(value: string)

  datatype StepResult = StepResult(outcome: Outcome, counts: Counts)
  datatype RunResult = RunResult(outcomes: seq<Outcome>, counts: Counts)

  /** The argument vector of a converter call. */
  function Command(c: Conversion): seq<string> {
    ["convert", "-resize", Resize.Render(c.spec), c.source, c.dest]
  }

  /** The destination path the script builds from the destination directory and the planned name. */
  function DestPath(config: Config, name: string): string {
    config.destDir + "/" + name
  }

  /**
   * One file through the script's loop body, from the counter before it to
   * its outcome and the counter after it.
   */
  function Step(config: Config, counts: Counts, f: FileRecord): (r: StepResult)
    ensures !r.outcome.Converted? ==> r.counts == counts
    ensures r.outcome.Converted? ==>
              r.outcome.call.source == f.path && r.outcome.call.dest == DestPath(config, r.outcome.name)
    ensures r.counts != counts ==> TimestampMode(config.rename, config.nameMask)
    ensures !Walker.ExtensionAccepted(f.suffix) ==> r == StepResult(Skipped(UnsupportedExtension), counts)
    ensures var d := Resize.Plan(config.resize, f.tags);
      Walker.ExtensionAccepted(f.suffix) && d.Skip? ==> r == StepResult(Skipped(MissingResizeTags(d.missing)), counts)
    ensures var d := Resize.Plan(config.resize, f.tags);
      var p := PlanName(config.rename, config.nameMask, f.name, f.tags.dateTimeOriginal, counts);
      Walker.ExtensionAccepted(f.suffix) && d.Use? ==>
        (p.MissingDate? ==> r == StepResult(Skipped(MissingDateTimeOriginal), counts)) &&
        (p.MeaninglessDate? ==> r == StepResult(Skipped(MeaninglessDateTimeOriginal(p.value)), counts)) &&
        (p.Unparsable? ==> r == StepResult(Crashed(p.value), counts)) &&
        (p.Named? ==> r.outcome.Converted? && r.outcome.call.spec == d.spec &&
                      p == Named(r.outcome.name, r.counts))
  {
    if !Walker.ExtensionAccepted(f.suffix) then StepResult(Skipped(UnsupportedExtension), counts)
    else
      match Resize.Plan(config.resize, f.tags)
      case Skip(missing) => StepResult(Skipped(MissingResizeTags(missing)), counts)
      case Use(spec) =>
        match PlanName(config.rename, config.nameMask, f.name, f.tags.dateTimeOriginal, counts)
        case MissingDate => StepResult(Skipped(MissingDateTimeOriginal), counts)
        case MeaninglessDate(v) => StepResult(Skipped(MeaninglessDateTimeOriginal(v)), counts)
        case Unparsable(v) => StepResult(Crashed(v), counts)
        case Named(name, counts') => StepResult(Converted(Conversion(spec, f.path, DestPath(config, name)), name), counts')
  }

  /** A loop body, from the counter before a file to that file's outcome and the counter after it. */
  type Stepper = (Counts, FileRecord) -> StepResult

  /** The script's loop body. */
  function Script(config: Config): Stepper {
    (c: Counts, f: FileRecord) => Step(config, c, f)
  }

  /** The files in walk order; a crash ends the run and the files after it are never looked at. */
  function RunWith(step: Stepper, counts: Counts, files: seq<FileRecord>): (r: RunResult)
    ensures |r.outcomes| <= |files| && (files != [] ==> r.outcomes != [])
    ensures |r.outcomes| < |files| ==> r.outcomes[|r.outcomes| - 1].Crashed?
    decreases |files|
  {
    if files == [] then RunResult([], counts)
    else
      var s := step(counts, files[0]);
      if s.outcome.Crashed? then RunResult([s.outcome], s.counts)
      else
        var rest := RunWith(step, s.counts, files[1..]);
        RunResult([s.outcome] + rest.outcomes, rest.counts)
  }

  /** A crash can only be the last outcome of a run: the files after it are never looked at. */
  lemma {:induction false} RunCrashEnds(step: Stepper, counts: Counts, files: seq<FileRecord>)
    ensures forall i :: 0 <= i < |RunWith(step, counts, files).outcomes| - 1 ==>
              !RunWith(step, counts, files).outcomes[i].Crashed?
    decreases |files|
  {
    if files != [] {
      var s := step(counts, files[0]);
      if !s.outcome.Crashed? {
        RunCrashEnds(step, s.counts, files[1..]);
        var rest := RunWith(step, s.counts, files[1..]);
        var os := [s.outcome] + rest.outcomes;
        forall i | 0 <= i < |os| - 1
          ensures !os[i].Crashed?
        {
          if i > 0 {
            assert os[i] == rest.outcomes[i - 1];
          } else {
            assert os[0] == s.outcome;
          }
        }
      }
    }
  }

  /** The script's run. */
  function RunSpec(config: Config, counts: Counts, files: seq<FileRecord>): RunResult {
    RunWith(Script(config), counts, files)
  }

  /** The outcomes of a prefix of the files followed by the result of the rest. */
  function Join(first: seq<Outcome>, rest: RunResult): RunResult {
    RunResult(first + rest.outcomes, rest.counts)
  }

  lemma JoinJoin(a: seq<Outcome>, b: seq<Outcome>, r: RunResult)
    ensures Join(a, Join(b, r)) == Join(a + b, r)
  {
    assert a + (b + r.outcomes) == (a + b) + r.outcomes;
  }

  /** Moving the loop of the run past file i, after the outcomes of the files before it. */
  lemma RunAdvance(step: Stepper, counts0: Counts, files: seq<FileRecord>, i: nat, done: seq<Outcome>, before: Counts)
    requires i < |files|
    requires RunWith(step, counts0, files) == Join(done, RunWith(step, before, files[i..]))
    ensures var s := step(before, files[i]);
      if s.outcome.Crashed? then RunWith(step, counts0, files) == RunResult(done + [s.outcome], s.counts)
      else RunWith(step, counts0, files) == Join(done + [s.outcome], RunWith(step, s.counts, files[i + 1..]))
  {
    var rest := files[i..];
    assert rest[0] == files[i] && rest[1..] == files[i + 1..];
    var s := step(before, files[i]);
    if !s.outcome.Crashed? {
      JoinJoin(done, [s.outcome], RunWith(step, s.counts, files[i + 1..]));
    }
  }

  /** The converter calls the outcomes stand for, in order. */
  function Calls(outcomes: seq<Outcome>): seq<Conversion> {
    if outcomes == [] then []
    else (if outcomes[0].Converted? then [outcomes[0].call] else []) + Calls(outcomes[1..])
  }

  /** The destination names of the converted files, in order. */
  function Names(outcomes: seq<Outcome>): seq<string> {
    if outcomes == [] then []
    else (if outcomes[0].Converted? then [outcomes[0].name] else []) + Names(outcomes[1..])
  }

  predicate Distinct(s: seq<string>) {
    forall i, j :: 0 <= i < j < |s| ==> s[i] != s[j]
  }

  /** The destination paths of the converted files, in order. */
  function Dests(outcomes: seq<Outcome>): seq<string> {
    if outcomes == [] then []
    else (if outcomes[0].Converted? then [outcomes[0].call.dest] else []) + Dests(outcomes[1..])
  }

  /** The destination paths of a sequence of names. */
  function Paths(config: Config, names: seq<string>): (r: seq<string>)
    ensures |r| == |names|
  {
    if names == [] then [] else [DestPath(config, names[0])] + Paths(config, names[1..])
  }

  /** A file whose resize tags are missing is dropped before any naming: no call, no counter change. */
  lemma ResizeCheckComesFirst(config: Config, counts: Counts, f: FileRecord)
    requires config.resize && Walker.ExtensionAccepted(f.suffix)
    requires f.tags.width.None? || f.tags.length.None?
    ensures Step(config, counts, f) == StepResult(Skipped(MissingResizeTags(Resize.MissingIn(Resize.ResizeTagsNeeded, f.tags))), counts)
  {
  }

  /** With resizing off, the size tags have no influence on a file's fate, and the geometry is "100%". */
  lemma NoResizeIgnoresSizeTags(config: Config, counts: Counts, f: FileRecord, w: Option<nat>, l: Option<nat>)
    requires !config.resize
    ensures var g := f.(tags := f.tags.(width := w, length := l));
      Step(config, counts, f) == Step(config, counts, g)
    ensures Step(config, counts, f).outcome.Converted? ==> Step(config, counts, f).outcome.call.spec == Resize.Percent100
  {
  }

  /**
   * With a non-empty mask every converted file gets the mask itself as its
   * name: no counter change, no suffix, and the capture time is never looked at.
   */
  lemma MaskNamesEveryFile(config: Config, counts: Counts, f: FileRecord)
    requires config.rename && MaskActive(config.nameMask)
    ensures var s := Step(config, counts, f);
      s.counts == counts && !s.outcome.Crashed? &&
      (s.outcome.Converted? ==> s.outcome.name == config.nameMask.value) &&
      (s.outcome.Skipped? ==> s.outcome.reason.UnsupportedExtension? || s.outcome.reason.MissingResizeTags?)
  {
  }

  /** A 4000x3000 image with an accepted suffix, resize on and rename off, is converted to 2126x1594 under its own name. */
  lemma StepExample(config: Config, counts: Counts, f: FileRecord)
    requires config.resize && !config.rename && Walker.ExtensionAccepted(f.suffix)
    requires f.tags.width == Some(4000) && f.tags.length == Some(3000)
    ensures Step(config, counts, f)
         == StepResult(Converted(Conversion(Resize.Dims(2126, 1594), f.path, DestPath(config, f.name)), f.name), counts)
  {
    Resize.LandscapeExample();
    assert f.tags == Tags(Some(4000), Some(3000), f.tags.dateTimeOriginal);
  }

  /**
   * A converted file in timestamp mode is named after its capture time: only
   * the count of that base name changes, by one, and the name carries it.
   */
  lemma StepTimestampName(config: Config, counts: Counts, f: FileRecord)
    requires WellFormed(counts) && TimestampMode(config.rename, config.nameMask)
    requires Step(config, counts, f).outcome.Converted?
    ensures f.tags.dateTimeOriginal.Some? && Timestamp.Valid(f.tags.dateTimeOriginal.value)
    ensures var base := Timestamp.Reformat(f.tags.dateTimeOriginal.value);
            var r := Step(config, counts, f);
            r.counts == counts[base := Uses(counts, base) + 1] &&
            r.outcome.name == NameFor(base, Uses(counts, base) + 1)
  {
    var plan := Resize.Plan(config.resize, f.tags);
    var p := PlanName(config.rename, config.nameMask, f.name, f.tags.dateTimeOriginal, counts);
    assert Walker.ExtensionAccepted(f.suffix) && plan.Use? && p.Named?;
  }

  /**
   * One file keeps the counter well formed; in timestamp mode the counter only
   * gains issued names, and a converted file's name is one it had not issued.
   */
  lemma StepWellFormed(config: Config, counts: Counts, f: FileRecord)
    requires WellFormed(counts)
    ensures WellFormed(Step(config, counts, f).counts)
  {
    var s := Step(config, counts, f);
    if s.counts != counts {
      StepTimestampName(config, counts, f);
      var base := Timestamp.Reformat(f.tags.dateTimeOriginal.value);
      NextFresh(counts, base);
      assert s.counts == Next(counts, base).counts;
    }
  }

  lemma StepFresh(config: Config, counts: Counts, f: FileRecord)
    requires WellFormed(counts)
    ensures var s := Step(config, counts, f);
      Grows(counts, s.counts) &&
      (TimestampMode(config.rename, config.nameMask) && s.outcome.Converted? ==> Fresh(counts, s.counts, s.outcome.name))
  {
    var s := Step(config, counts, f);
    if s.outcome.Converted? && TimestampMode(config.rename, config.nameMask) {
      StepTimestampName(config, counts, f);
      NextFresh(counts, Timestamp.Reformat(f.tags.dateTimeOriginal.value));
    }
  }

  lemma NamesCons(o: Outcome, rest: seq<Outcome>)
    ensures Names([o] + rest) == (if o.Converted? then [o.name] else []) + Names(rest)
    ensures Dests([o] + rest) == (if o.Converted? then [o.call.dest] else []) + Dests(rest)
  {
    assert ([o] + rest)[1..] == rest;
  }

  /** A loop body that keeps the counter well formed. */
  ghost predicate KeepsWellFormed(step: Stepper) {
    forall c: Counts, f: FileRecord :: WellFormed(c) ==> WellFormed(step(c, f).counts)
  }

  /** A loop body whose converter calls write to the path of the planned name. */
  ghost predicate WritesByName(config: Config, step: Stepper) {
    forall c: Counts, f: FileRecord ::
      step(c, f).outcome.Converted? ==> step(c, f).outcome.call.dest == DestPath(config, step(c, f).outcome.name)
  }

  /** A loop body that only lets the counter grow and names a converted file with a name it had not issued. */
  ghost predicate IssuesFresh(step: Stepper) {
    forall c: Counts, f: FileRecord :: WellFormed(c) ==>
      Grows(c, step(c, f).counts) &&
      (step(c, f).outcome.Converted? ==> Fresh(c, step(c, f).counts, step(c, f).outcome.name))
  }

  lemma ScriptKeepsWellFormed(config: Config)
    ensures KeepsWellFormed(Script(config))
  {
    forall c: Counts, f: FileRecord | WellFormed(c)
      ensures WellFormed(Script(config)(c, f).counts)
    {
      StepWellFormed(config, c, f);
    }
  }

  lemma ScriptWritesByName(config: Config)
    ensures WritesByName(config, Script(config))
  {
    forall c: Counts, f: FileRecord
      ensures Script(config)(c, f) == Step(config, c, f)
    {
    }
  }

  lemma ScriptIssuesFresh(config: Config)
    requires TimestampMode(config.rename, config.nameMask)
    ensures IssuesFresh(Script(config))
  {
    forall c: Counts, f: FileRecord | WellFormed(c)
      ensures var s := Script(config)(c, f);
        Grows(c, s.counts) && (s.outcome.Converted? ==> Fresh(c, s.counts, s.outcome.name))
    {
      StepFresh(config, c, f);
    }
  }

  /** Over a run the counter stays well formed, and each call writes to the path of its file's name. */
  lemma {:induction false} RunShape(config: Config, step: Stepper, counts: Counts, files: seq<FileRecord>)
    requires KeepsWellFormed(step) && WritesByName(config, step) && WellFormed(counts)
    ensures var r := RunWith(step, counts, files);
      WellFormed(r.counts) && Dests(r.outcomes) == Paths(config, Names(r.outcomes))
    decreases |files|
  {
    if files != [] {
      var s := step(counts, files[0]);
      NamesCons(s.outcome, []);
      if !s.outcome.Crashed? {
        RunShape(config, step, s.counts, files[1..]);
        var rest := RunWith(step, s.counts, files[1..]);
        NamesCons(s.outcome, rest.outcomes);
        var ns := Names(rest.outcomes);
        if s.outcome.Converted? {
          assert ([s.outcome.name] + ns)[1..] == ns;
          assert Paths(config, [s.outcome.name] + ns) == [DestPath(config, s.outcome.name)] + Paths(config, ns);
        } else {
          assert Names([s.outcome] + rest.outcomes) == ns;
          assert Dests([s.outcome] + rest.outcomes) == Dests(rest.outcomes);
        }
      }
    }
  }

  /**
   * Under a loop body that issues fresh names, every name of a run is fresh
   * with respect to the counter before and after the run, and no two names of
   * the run are equal.
   */
  lemma {:induction false} RunNamesFresh(step: Stepper, counts: Counts, files: seq<FileRecord>)
    requires KeepsWellFormed(step) && IssuesFresh(step) && WellFormed(counts)
    ensures var r := RunWith(step, counts, files);
      var ns := Names(r.outcomes);
      Distinct(ns) && Grows(counts, r.counts) &&
      forall i :: 0 <= i < |ns| ==> Fresh(counts, r.counts, ns[i])
    decreases |files|
  {
    if files != [] {
      var s := step(counts, files[0]);
      NamesCons(s.outcome, []);
      if !s.outcome.Crashed? {
        RunNamesFresh(step, s.counts, files[1..]);
        var rest := RunWith(step, s.counts, files[1..]);
        var tail := Names(rest.outcomes);
        NamesCons(s.outcome, rest.outcomes);
        if s.outcome.Converted? {
          assert Names([s.outcome] + rest.outcomes) == [s.outcome.name] + tail;
          FreshCons(counts, s.counts, rest.counts, s.outcome.name, tail);
        } else {
          assert Names([s.outcome] + rest.outcomes) == tail;
          FreshTail(counts, s.counts, rest.counts, tail);
        }
      }
    }
  }

  /** A fresh name followed by names fresh after it: all distinct, all fresh over both stretches. */
  lemma FreshCons(c0: Counts, c1: Counts, c2: Counts, name: string, tail: seq<string>)
    requires Grows(c0, c1) && Grows(c1, c2) && Fresh(c0, c1, name)
    requires Distinct(tail) && forall j :: 0 <= j < |tail| ==> Fresh(c1, c2, tail[j])
    ensures var ns := [name] + tail;
      Distinct(ns) && Grows(c0, c2) && forall i :: 0 <= i < |ns| ==> Fresh(c0, c2, ns[i])
  {
    FreshTail(c0, c1, c2, tail);
    FreshExtend(c0, c1, c2, name);
    forall j | 0 <= j < |tail|
      ensures tail[j] != name
    {
      FreshApart(c0, c1, c2, name, tail[j]);
    }
    DistinctCons(name, tail);
    var ns := [name] + tail;
    forall i | 0 <= i < |ns|
      ensures Fresh(c0, c2, ns[i])
    {
      if i > 0 {
        assert ns[i] == tail[i - 1];
      }
    }
  }

  lemma FreshTail(c0: Counts, c1: Counts, c2: Counts, tail: seq<string>)
    requires Grows(c0, c1) && Grows(c1, c2)
    requires forall j :: 0 <= j < |tail| ==> Fresh(c1, c2, tail[j])
    ensures Grows(c0, c2) && forall j :: 0 <= j < |tail| ==> Fresh(c0, c2, tail[j])
  {
    forall j | 0 <= j < |tail|
      ensures Fresh(c0, c2, tail[j])
    {
      FreshExtend(c0, c1, c2, tail[j]);
    }
  }

  lemma DistinctCons(x: string, t: seq<string>)
    requires Distinct(t) && forall j :: 0 <= j < |t| ==> t[j] != x
    ensures Distinct([x] + t)
  {
    var s := [x] + t;
    forall i, j | 0 <= i < j < |s|
      ensures s[i] != s[j]
    {
      assert s[j] == t[j - 1];
      if i > 0 {
        assert s[i] == t[i - 1];
      }
    }
  }

  lemma {:induction false} CallsAppend(a: seq<Outcome>, b: seq<Outcome>)
    ensures Calls(a + b) == Calls(a) + Calls(b)
    decreases |a|
  {
    if a != [] {
      CallsAppend(a[1..], b);
      var ab := a + b;
      assert ab != [] && ab[0] == a[0] && ab[1..] == a[1..] + b;
      var c := if a[0].Converted? then [a[0].call] else [];
      assert Calls(ab) == c + Calls(a[1..] + b);
      assert Calls(a) == c + Calls(a[1..]);
    } else {
      assert a + b == b;
    }
  }

  lemma CallsExtend(prefix: seq<Conversion>, done: seq<Outcome>, o: Outcome)
    ensures prefix + Calls(done) + Calls([o]) == prefix + Calls(done + [o])
  {
    CallsAppend(done, [o]);
  }

  /** Distinct names give distinct destination paths. */
  lemma {:induction false} PathsDistinct(config: Config, names: seq<string>)
    requires Distinct(names)
    ensures Distinct(Paths(config, names))
    decreases |names|
  {
    if names != [] {
      PathsDistinct(config, names[1..]);
      var p := Paths(config, names);
      assert p[1..] == Paths(config, names[1..]);
      forall i, j | 0 <= i < j < |p|
        ensures p[i] != p[j]
      {
        PathAt(config, names, i);
        PathAt(config, names, j);
        var pre := config.destDir + "/";
        assert p[i][|pre|..] == names[i];
        assert p[j][|pre|..] == names[j];
      }
    }
  }

  lemma {:induction false} PathAt(config: Config, names: seq<string>, i: nat)
    requires i < |names|
    ensures Paths(config, names)[i] == DestPath(config, names[i])
    decreases i
  {
    if i > 0 {
      PathAt(config, names[1..], i - 1);
    }
  }

  /**
   * Within one run in timestamp mode, starting from an empty counter, no two
   * files receive the same name, so no converter call overwrites another's output.
   */
  lemma RunDestinationsDistinct(config: Config, files: seq<FileRecord>)
    requires TimestampMode(config.rename, config.nameMask)
    ensures Distinct(Names(RunSpec(config, map[], files).outcomes))
    ensures Distinct(Dests(RunSpec(config, map[], files).outcomes))
  {
    ScriptKeepsWellFormed(config);
    ScriptWritesByName(config);
    ScriptIssuesFresh(config);
    RunShape(config, Script(config), map[], files);
    RunNamesFresh(Script(config), map[], files);
    PathsDistinct(config, Names(RunSpec(config, map[], files).outcomes));
  }

  /**
   * The script's run: the flags, the duplicate counter `counts` it updates in
   * place, and the converter calls it has made so far.
   */
  class BatchRun {
    const config: Config
    var counts: Counts
    var calls: seq<Conversion>

    ghost predicate Valid()
      reads this
    {
      WellFormed(counts)
    }

    constructor (config: Config)
      ensures Valid()
      ensures this.config == config && counts == map[] && calls == []
    {
      this.config := config;
      counts := map[];
      calls := [];
    }

    /** Lines 85-90: count one more use of `base` and build the suffixed name. */
    method NextName(base: string) returns (name: string)
      requires Valid() && |base| == Timestamp.Width
      modifies this`counts
      ensures Valid()
      ensures Suffixed(name, counts) == Next(old(counts), base)
    {
      if base in counts {
        counts := counts[base := counts[base] + 1];
        name := base + "-" + Decimal.Show(counts[base]);
      } else {
        counts := counts[base := 1];
        name := base;
      }
      name := name + ".jpg";
      NextFresh(old(counts), base);
    }

    /** Lines 70-90: the new name, counting the use of a timestamp name in `counts`. */
    method PlanFileName(f: FileRecord) returns (p: Plan)
      requires Valid()
      modifies this`counts
      ensures Valid()
      ensures p == PlanName(config.rename, config.nameMask, f.name, f.tags.dateTimeOriginal, old(counts))
      ensures counts == if p.Named? then p.counts else old(counts)
    {
      var newName := f.name;
      if config.rename {
        if MaskActive(config.nameMask) {
          newName := config.nameMask.value;
        } else {
          if f.tags.dateTimeOriginal.None? {
            return MissingDate;
          }
          var exifDate := f.tags.dateTimeOriginal.value;
          if Timestamp.ZeroYear(exifDate) {
            return MeaninglessDate(exifDate);
          }
          if !Timestamp.Valid(exifDate) {
            return Unparsable(exifDate);
          }
          newName := NextName(Timestamp.Reformat(exifDate));
        }
      }
      p := Named(newName, counts);
    }

    /** The loop body for one file: any skip returns before the converter call. */
    method ProcessFile(f: FileRecord) returns (outcome: Outcome)
      requires Valid()
      modifies this
      ensures Valid()
      ensures StepResult(outcome, counts) == Step(config, old(counts), f)
      ensures calls == old(calls) + Calls([outcome])
    {
      if !Walker.ExtensionAccepted(f.suffix) {
        return Skipped(UnsupportedExtension);
      }
      var d := Resize.PlanResize(config.resize, f.tags);
      if d.Skip? {
        return Skipped(MissingResizeTags(d.missing));
      }
      var p := PlanFileName(f);
      match p
      case MissingDate =>
        return Skipped(MissingDateTimeOriginal);
      case MeaninglessDate(v) =>
        return Skipped(MeaninglessDateTimeOriginal(v));
      case Unparsable(v) =>
        return Crashed(v);
      case Named(newName, _) =>
        var call := Conversion(d.spec, f.path, DestPath(config, newName));
        calls := calls + [call];
        outcome := Converted(call, newName);
        assert Calls([outcome]) == [call];
    }

    /**
     * The main loop over the files in walk order. A crash leaves the loop;
     * in timestamp mode the run's names are pairwise distinct.
     */
    method Run(files: seq<FileRecord>) returns (outcomes: seq<Outcome>)
      requires Valid()
      modifies this
      ensures Valid()
      ensures RunResult(outcomes, counts) == RunSpec(config, old(counts), files)
      ensures calls == old(calls) + Calls(outcomes)
      ensures TimestampMode(config.rename, config.nameMask) ==> Distinct(Names(outcomes))
    {
      ghost var counts0 := counts;
      outcomes := [];
      var i := 0;
      var crashed := false;
      while i < |files| && !crashed
        invariant 0 <= i <= |files|
        invariant WellFormed(counts)
        invariant !crashed ==> RunWith(Script(config), counts0, files) == Join(outcomes, RunWith(Script(config), counts, files[i..]))
        invariant crashed ==> RunWith(Script(config), counts0, files) == RunResult(outcomes, counts)
        invariant calls == old(calls) + Calls(outcomes)
      {
        ghost var before, callsBefore := counts, calls;
        var o := ProcessFile(files[i]);
        RunAdvance(Script(config), counts0, files, i, outcomes, before);
        CallsExtend(old(calls), outcomes, o);
        outcomes := outcomes + [o];
        crashed := o.Crashed?;
        i := i + 1;
      }
      if !crashed {
        assert files[i..] == [];
        assert outcomes + [] == outcomes;
      }
      if TimestampMode(config.rename, config.nameMask) {
        ScriptKeepsWellFormed(config);
        ScriptIssuesFresh(config);
        RunNamesFresh(Script(config), counts0, files);
      }
    }
  }
}
