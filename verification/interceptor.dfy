/** The toolchain interceptor (`main` in both main.go files): it runs in
    place of the Go compiler and linker, rewrites the compile command of a
    `main` package so that instrumented copies of its sources are compiled
    instead, and appends to the import configuration the archive lines the
    instrumented program needs. File and process effects are not modelled:
    the lines to append are returned, and the instrumentation of the sources
    is a parameter. */
module Interceptor {
  import opened Outcomes
  import opened ByteStrings
  import opened Paths
  import opened Arguments

  /** `pkgPath`: the directory of the standard-library archives of the
      toolchain that `tool` belongs to, two levels above the tool's
      directory, under the tool directory's name. */
  function PkgPath(tool: string): string
  {
    Join(Dir(Dir(Dir(tool))), Base(Dir(tool)))
  }

  /** For `<root>/<tools>/<platform>/<name>` it is `<root>/<platform>`. */
  lemma PkgPathOf(root: string, tools: string, platform: string, name: string)
    requires root != [] && root[0] == Slash && root[|root| - 1] != Slash
    requires tools != [] && Slash !in tools
    requires platform != [] && Slash !in platform
    requires name != [] && Slash !in name
    ensures PkgPath(root + [Slash] + tools + [Slash] + platform + [Slash] + name) == root + [Slash] + platform
  {
    var a := root + [Slash] + tools;
    var b := a + [Slash] + platform;
    assert a[|a| - 1] == tools[|tools| - 1] && tools[|tools| - 1] in tools;
    assert b[|b| - 1] == platform[|platform| - 1] && platform[|platform| - 1] in platform;
    DirJoinBase(b, name);
    DirJoinBase(a, platform);
    DirJoinBase(root, tools);
  }

  /** A line of an import configuration: `packagefile <path>=<archive>`. */
  function ArchiveLine(importPath: string, archive: string): string
  {
    "packagefile " + importPath + "=" + archive + "\n"
  }

  const LinePrefix: string := "packagefile "

  /** How the toolchain reads such a line back: the import path up to the
      first `=`, the archive after it. */
  function ReadArchiveLine(line: string): Option<(string, string)>
  {
    if |line| < |LinePrefix| + 1 || line[..|LinePrefix|] != LinePrefix || line[|line| - 1] != '\n' then None
    else
      var body := line[|LinePrefix|..|line| - 1];
      var i := IndexOf(body, '=');
      if i < 0 then None else Some((body[..i], body[i + 1..]))
  }

  /** Every line written reads back as the import path and archive it was
      written for, when the import path holds no `=`. */
  lemma ArchiveLineRoundTrip(importPath: string, archive: string)
    requires '=' !in importPath
    ensures ReadArchiveLine(ArchiveLine(importPath, archive)) == Some((importPath, archive))
  {
    var line := ArchiveLine(importPath, archive);
    var body := importPath + ['='] + archive;
    assert line == LinePrefix + body + "\n";
    assert line[..|LinePrefix|] == LinePrefix;
    assert line[|LinePrefix|..|line| - 1] == body;
    IndexOfAfter(importPath, '=', archive);
    assert body[..|importPath|] == importPath;
    assert body[|importPath| + 1..] == archive;
  }

  /** The line both the compile and the link step append for the
      collector's archive, built next to the output (`cov_pkg.a`). */
  function CollectorLine(buildDir: string): string
  {
    ArchiveLine("covcollect", Join(buildDir, "cov_pkg.a"))
  }

  /** The standard-library packages whose archives `link` names, in the
      order it writes them; two of them are written twice. */
  const StdPackages: seq<string> := [
    "fmt", "bufio", "os", "time", "bytes", "errors", "io", "unicode/utf8",
    "unicode", "strconv", "internal/fmtsort", "reflect", "sync", "math",
    "syscall", "internal/testlog", "internal/oserror", "internal/poll",
    "sync/atomic", "internal/syscall/execenv", "internal/syscall/unix",
    "internal/reflectlite", "internal/syscall/unix", "internal/reflectlite",
    "math/bits", "sort", "internal/race"]

  /** `packagefile <name>=<pkgPath>/<name>.a`. */
  function StdLine(pkgPath: string, name: string): string
  {
    ArchiveLine(name, pkgPath + "/" + name + ".a")
  }

  /** One `packagefile <name>=<pkgPath>/<name>.a` line per name, in order. */
  function StdLines(pkgPath: string, names: seq<string>): (lines: seq<string>)
    ensures |lines| == |names|
  {
    seq(|names|, i requires 0 <= i < |names| => StdLine(pkgPath, names[i]))
  }

  /** `link`: the lines appended to the import configuration, nothing when
      the output or the configuration is not given. The arguments are
      returned unchanged in every case, so only the lines are modelled. */
  function LinkLines(args: seq<string>, form: EqualsForm): Outcome<seq<string>>
    requires |args| >= 1
  {
    var opt := GetOptions(args[1..], form);
    if !opt.Ok? then Fail(opt)
    else if opt.value.output == "" || opt.value.importCfg == "" then Ok([])
    else Ok([CollectorLine(Dir(opt.value.importCfg))] + StdLines(PkgPath(args[0]), StdPackages))
  }

  /** The linker writes nothing exactly when the output or the
      configuration is missing, and fails only when the scan does. */
  lemma LinkLinesPassthrough(args: seq<string>, form: EqualsForm)
    requires |args| >= 1
    ensures var opt := GetOptions(args[1..], form);
      var r := LinkLines(args, form);
      && (r.Ok? <==> opt.Ok?)
      && (r.Ok? ==> (r.value == [] <==> opt.value.output == "" || opt.value.importCfg == ""))
  {
  }

  /** When it writes, it writes the collector's archive next to the
      configuration, then one line per standard package in the fixed order,
      duplicates kept, each reading back as that package and its archive
      under the toolchain's `pkgPath`. */
  lemma LinkLinesContent(args: seq<string>, form: EqualsForm)
    requires |args| >= 1
    ensures var r := LinkLines(args, form);
      r.Ok? && r.value != [] ==>
        && |r.value| == 1 + |StdPackages| == 28
        && ReadArchiveLine(r.value[0]) == Some(("covcollect", Join(Dir(GetOptions(args[1..], form).value.importCfg), "cov_pkg.a")))
        && r.value[21] == r.value[23] && r.value[22] == r.value[24]
        && forall i :: 0 <= i < |StdPackages| ==>
             ReadArchiveLine(r.value[i + 1]) == Some((StdPackages[i], PkgPath(args[0]) + "/" + StdPackages[i] + ".a"))
  {
    var r := LinkLines(args, form);
    if r.Ok? && r.value != [] {
      var dir := Dir(GetOptions(args[1..], form).value.importCfg);
      var head := CollectorLine(dir);
      assert r.value == [head] + StdLines(PkgPath(args[0]), StdPackages);
      assert ReadArchiveLine(head) == Some(("covcollect", Join(dir, "cov_pkg.a"))) by {
        CollectorLineReadsBack(dir);
      }
      assert |StdPackages| == 27 && StdPackages[20] == StdPackages[22] && StdPackages[21] == StdPackages[23]
        && forall i :: 0 <= i < |StdPackages| ==> '=' !in StdPackages[i]
      by {
        StdPackagesRepeat();
        StdPackagesPlain();
      }
      LinkManifest(head, PkgPath(args[0]), StdPackages);
    }
  }

  /** The link manifest over any 27 names whose entries 20 and 21 repeat as
      22 and 23. */
  lemma LinkManifest(head: string, pkgPath: string, names: seq<string>)
    requires |names| == 27 && names[20] == names[22] && names[21] == names[23]
    requires forall i :: 0 <= i < |names| ==> '=' !in names[i]
    ensures var m := [head] + StdLines(pkgPath, names);
      && |m| == 28 && m[0] == head
      && m[21] == m[23] && m[22] == m[24]
      && forall i :: 0 <= i < |names| ==> ReadArchiveLine(m[i + 1]) == Some((names[i], pkgPath + "/" + names[i] + ".a"))
  {
    Manifest(head, pkgPath, names);
    ManifestRepeats(head, pkgPath, names, 20, 22);
    ManifestRepeats(head, pkgPath, names, 21, 23);
  }

  /** A line followed by one line per name: each name's line reads back as
      the name and its archive. */
  lemma Manifest(head: string, pkgPath: string, names: seq<string>)
    requires forall i :: 0 <= i < |names| ==> '=' !in names[i]
    ensures var m := [head] + StdLines(pkgPath, names);
      && |m| == 1 + |names| && m[0] == head
      && forall i :: 0 <= i < |names| ==> ReadArchiveLine(m[i + 1]) == Some((names[i], pkgPath + "/" + names[i] + ".a"))
  {
    var lines := StdLines(pkgPath, names);
    var m := [head] + lines;
    forall i | 0 <= i < |names|
      ensures ReadArchiveLine(m[i + 1]) == Some((names[i], pkgPath + "/" + names[i] + ".a"))
    {
      assert m[i + 1] == lines[i];
      ArchiveLineRoundTrip(names[i], pkgPath + "/" + names[i] + ".a");
    }
  }

  /** Equal names give equal lines: nothing is de-duplicated. */
  lemma ManifestRepeats(head: string, pkgPath: string, names: seq<string>, a: nat, b: nat)
    requires a < |names| && b < |names| && names[a] == names[b]
    ensures var m := [head] + StdLines(pkgPath, names);
      m[a + 1] == m[b + 1]
  {
    var lines := StdLines(pkgPath, names);
    assert ([head] + lines)[a + 1] == lines[a];
    assert ([head] + lines)[b + 1] == lines[b];
  }

  /** `internal/syscall/unix` and `internal/reflectlite` are listed twice. */
  lemma StdPackagesRepeat()
    ensures |StdPackages| == 27
    ensures StdPackages[20] == StdPackages[22] && StdPackages[21] == StdPackages[23]
  {
  }

  /** The collector's line reads back as `covcollect` and its archive. */
  lemma CollectorLineReadsBack(buildDir: string)
    ensures ReadArchiveLine(CollectorLine(buildDir)) == Some(("covcollect", Join(buildDir, "cov_pkg.a")))
  {
    var name := "covcollect";
    assert '=' !in name;
    ArchiveLineRoundTrip(name, Join(buildDir, "cov_pkg.a"));
  }

  /** No standard package name holds a `=`. */
  lemma StdPackagesPlain()
    ensures forall i :: 0 <= i < |StdPackages| ==> '=' !in StdPackages[i]
  {
    forall i | 0 <= i < |StdPackages|
      ensures '=' !in StdPackages[i]
    {
    }
  }

  /** The instrumentation of the sources into a directory: adding every
      source, instrumenting them and writing the results. Any failure is a
      panic. */
  type Instrumentation = (seq<string>, string) -> Outcome<()>

  /** What `instrumentPackage` decides. */
  datatype Compile =
    | Unchanged
    | Rewritten(sources: seq<string>, dir: string, args: seq<string>)

  /** `Join(dir, Base(src))` for every source, in order. */
  function Placed(dir: string, sources: seq<string>): (r: seq<string>)
    ensures |r| == |sources|
    ensures forall i :: 0 <= i < |sources| ==> r[i] == Join(dir, Base(sources[i]))
  {
    seq(|sources|, i requires 0 <= i < |sources| => Join(dir, Base(sources[i])))
  }

  /** The rewritten compile command: the arguments that are not Go files,
      then one copy in `dir` per Go file. */
  function RewrittenArgs(args: seq<string>, dir: string): seq<string>
  {
    Keep(args, false) + Placed(dir, Keep(args, true))
  }

  /** The rewritten command keeps the arguments that are not Go files in
      their order, then names one copy in `dir` per Go file, in its order:
      as many arguments as before, and the tool stays first unless its own
      name ends in `.go`. */
  lemma RewrittenArgsShape(args: seq<string>, dir: string)
    requires |args| >= 1
    ensures var r := RewrittenArgs(args, dir);
      && |r| == |args| == |Keep(args, false)| + |Keep(args, true)|
      && r[..|Keep(args, false)|] == Keep(args, false)
      && r[|Keep(args, false)|..] == Placed(dir, Keep(args, true))
      && (!IsGoFile(args[0]) ==> r[0] == args[0])
  {
    var others := Keep(args, false);
    var sources := Keep(args, true);
    var placed := Placed(dir, sources);
    var r := RewrittenArgs(args, dir);
    assert r == others + placed;
    KeepPartition(args);
    assert r[..|others|] == others;
    assert r[|others|..] == placed;
    if !IsGoFile(args[0]) {
      assert others == [args[0]] + Keep(args[1..], false);
    }
  }

  /** `instrumentPackage`: a compile of package `main` with output, package
      and configuration given has its sources instrumented into `direc`
      (or, when that is empty, the output's directory) and is rewritten to
      compile the copies there; any other compile is left alone. With no
      source among the arguments, reading the first one panics. */
  function InstrumentPackage(args: seq<string>, direc: string, form: EqualsForm, run: Instrumentation): (r: Outcome<Compile>)
    requires |args| >= 1
  {
    Decide(args, GetOptions(args[1..], form), direc, run)
  }

  /** The decision, given the outcome of scanning the options. */
  function Decide(args: seq<string>, opt: Outcome<Options>, direc: string, run: Instrumentation): Outcome<Compile>
  {
    if !opt.Ok? then Fail(opt)
    else if opt.value.output == "" || opt.value.packageName == "" || opt.value.importCfg == "" then Ok(Unchanged)
    else if opt.value.packageName != "main" then Ok(Unchanged)
    else
      var sources := Keep(args, true);
      if sources == [] then Panic("index out of range [0] with length 0")
      else
        var dir := if direc == "" then Dir(opt.value.output) else direc;
        var done := run(sources, dir);
        if !done.Ok? then Panic(done.reason)
        else Ok(Rewritten(sources, dir, RewrittenArgs(args, dir)))
  }

  /** The compile is left alone exactly when an option is missing or the
      package is not `main`; a `main` compile without Go files panics, and
      so does one whose instrumentation fails; otherwise the Go files of the
      command, in their order, are instrumented into `direc` or, when that
      is empty, the output's directory, and the command is rewritten to
      compile those copies. */
  lemma InstrumentPackageDecides(args: seq<string>, direc: string, form: EqualsForm, run: Instrumentation)
    requires |args| >= 1
    ensures var opt := GetOptions(args[1..], form);
      var r := InstrumentPackage(args, direc, form, run);
      && (!opt.Ok? ==> r.Panic?)
      && (r.Ok? && r.value.Unchanged? <==>
            opt.Ok? && (opt.value.output == "" || opt.value.packageName == "" || opt.value.importCfg == "" || opt.value.packageName != "main"))
      && (opt.Ok? && opt.value.output != "" && opt.value.importCfg != "" && opt.value.packageName == "main" && Keep(args, true) == [] ==> r.Panic?)
      && (r.Ok? && r.value.Rewritten? ==>
            && opt.Ok? && opt.value.packageName == "main"
            && r.value.sources != [] && r.value.sources == Keep(args, true)
            && r.value.dir == (if direc == "" then Dir(opt.value.output) else direc)
            && run(r.value.sources, r.value.dir).Ok?
            && r.value.args == RewrittenArgs(args, r.value.dir))
  {
    DecideCases(args, GetOptions(args[1..], form), direc, run);
  }

  lemma DecideCases(args: seq<string>, opt: Outcome<Options>, direc: string, run: Instrumentation)
    ensures var r := Decide(args, opt, direc, run);
      && (!opt.Ok? ==> !r.Ok? && r.reason == opt.reason && (r.Panic? <==> opt.Panic?))
      && (r.Ok? && r.value.Unchanged? <==>
            opt.Ok? && (opt.value.output == "" || opt.value.packageName == "" || opt.value.importCfg == "" || opt.value.packageName != "main"))
      && (opt.Ok? && opt.value.output != "" && opt.value.importCfg != "" && opt.value.packageName == "main" && Keep(args, true) == [] ==> r.Panic?)
      && (r.Ok? && r.value.Rewritten? ==>
            && opt.Ok? && opt.value.packageName == "main"
            && r.value.sources != [] && r.value.sources == Keep(args, true)
            && r.value.dir == (if direc == "" then Dir(opt.value.output) else direc)
            && run(r.value.sources, r.value.dir).Ok?
            && r.value.args == RewrittenArgs(args, r.value.dir))
  {
    if opt.Ok? && opt.value.output != "" && opt.value.packageName == "main" && opt.value.importCfg != "" {
      var sources := Keep(args, true);
      if sources != [] {
        var dir := if direc == "" then Dir(opt.value.output) else direc;
        assert Decide(args, opt, direc, run)
            == if run(sources, dir).Ok? then Ok(Rewritten(sources, dir, RewrittenArgs(args, dir))) else Panic(run(sources, dir).reason);
      }
    }
  }

  /** Which of the two `main` files: the per-file variant reads the second
      argument of a link command before running it. */
  datatype MainFile = SessionMain | PerFileMain

  /** The command `main` runs in place of the wrapped tool. */
  function Intercept(args: seq<string>, direc: string, form: EqualsForm, run: Instrumentation, variant: MainFile): Outcome<seq<string>>
    requires |args| >= 1
  {
    if IsCompile(args[0]) then
      var c := InstrumentPackage(args, direc, form, run);
      if !c.Ok? then Panic(c.reason)
      else if c.value.Unchanged? then Ok(args)
      else Ok(c.value.args)
    else if IsLink(args[0]) then
      var lines := LinkLines(args, form);
      if !lines.Ok? then Panic(lines.reason)
      else if variant == PerFileMain && |args| < 2 then Panic("index out of range [1] with length 1")
      else Ok(args)
    else Ok(args)
  }

  /** Only a compile command can be changed: every other command that does
      not panic runs exactly as given, and a link command without flags
      panics only in the per-file variant. */
  lemma InterceptChangesOnlyCompile(args: seq<string>, direc: string, form: EqualsForm, run: Instrumentation, variant: MainFile)
    requires |args| >= 1
    ensures var r := Intercept(args, direc, form, run, variant);
      && (!IsCompile(args[0]) && r.Ok? ==> r.value == args)
      && (!IsCompile(args[0]) && !IsLink(args[0]) ==> r == Ok(args))
      && (!IsCompile(args[0]) && IsLink(args[0]) && |args| == 1 ==> (r.Panic? <==> variant == PerFileMain))
      && (r.Ok? && r.value != args ==> IsCompile(args[0]) && |r.value| == |args|)
  {
    var r := Intercept(args, direc, form, run, variant);
    if IsCompile(args[0]) {
      InstrumentPackageDecides(args, direc, form, run);
      var c := InstrumentPackage(args, direc, form, run);
      if c.Ok? && c.value.Rewritten? {
        RewrittenArgsShape(args, c.value.dir);
      }
    } else if IsLink(args[0]) && |args| == 1 {
      assert args[1..] == [];
    }
  }
}
