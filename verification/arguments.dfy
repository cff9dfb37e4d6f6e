/** The argument helpers the interceptor shares between its two `main`
    files: the flag check of the interceptor itself (`parseFlags`), the
    recognition of the wrapped tool (`isCompile`, `isLink`), the split of a
    compile command into sources and the rest (`getSources`), and the scan of
    the wrapped tool's own flags (`getOptions`, `parseOption`). */
module Arguments {
  import opened Outcomes
  import opened ByteStrings
  import opened Paths

  /** Why the interceptor refuses its own command line. */
  datatype FlagError = BadPeriod | NoOutput | NoCommand

  /** `parseFlags`: the period must not be negative, the output name must
      not be empty and a wrapped command must follow, checked in that
      order; the first failing check is reported. */
  function ParseFlags(period: int, output: string, commandArgs: nat): (r: Option<FlagError>)
    ensures r.None? <==> period >= 0 && output != "" && commandArgs > 0
    ensures r == Some(BadPeriod) <==> period < 0
    ensures r == Some(NoOutput) <==> period >= 0 && output == ""
    ensures r == Some(NoCommand) <==> period >= 0 && output != "" && commandArgs == 0
  {
    if period < 0 then Some(BadPeriod)
    else if output == "" then Some(NoOutput)
    else if commandArgs == 0 then Some(NoCommand)
    else None
  }

  /** `isCompile` and `isLink`: the tool's last path element, without its
      extension, is the tool's name. */
  predicate IsTool(command: string, name: string)
  {
    Stem(command) == name
  }

  predicate IsCompile(command: string) { IsTool(command, "compile") }

  predicate IsLink(command: string) { IsTool(command, "link") }

  /** Any directory, any single extension (`.exe` or none): the tool is
      recognised by its name alone. */
  lemma ToolRecognised(dir: string, name: string, ext: string)
    requires name != [] && Slash !in name && '.' !in name
    requires ext == [] || (ext[0] == '.' && Slash !in ext && '.' !in ext[1..])
    ensures IsTool(dir + [Slash] + name + ext, name)
    ensures forall other :: other != name ==> !IsTool(dir + [Slash] + name + ext, other)
  {
    StemOf(dir, name, ext);
  }

  /** Only the last extension is stripped: `<dir>/compile.go` names the
      compiler, while `<dir>/compile.go.exe` does not. */
  lemma OnlyLastExtension(dir: string)
    ensures IsCompile(dir + [Slash] + "compile" + ".go")
    ensures !IsCompile(dir + [Slash] + "compile.go" + ".exe")
  {
    StemOf(dir, "compile", ".go");
    StemOf(dir, "compile.go", ".exe");
  }

  /** `strings.HasSuffix(arg, ".go")`. */
  predicate IsGoFile(arg: string)
  {
    HasSuffix(arg, ".go")
  }

  /** The arguments that are (`go`) or are not (`!go`) Go files, in their
      order. */
  function Keep(args: seq<string>, go: bool): (r: seq<string>)
    ensures |r| <= |args|
    ensures forall i :: 0 <= i < |r| ==> IsGoFile(r[i]) == go
  {
    if args == [] then []
    else (if IsGoFile(args[0]) == go then [args[0]] else []) + Keep(args[1..], go)
  }

  /** Keeping is compatible with concatenation: the order of the arguments
      is kept. */
  lemma {:induction false} KeepConcat(a: seq<string>, b: seq<string>, go: bool)
    ensures Keep(a + b, go) == Keep(a, go) + Keep(b, go)
  {
    if a == [] {
      assert a + b == b;
    } else {
      assert (a + b)[1..] == a[1..] + b;
      KeepConcat(a[1..], b, go);
    }
  }

  /** Every argument lands in exactly one of the two lists. */
  lemma {:induction false} KeepPartition(args: seq<string>)
    ensures multiset(Keep(args, true)) + multiset(Keep(args, false)) == multiset(args)
    ensures |Keep(args, true)| + |Keep(args, false)| == |args|
  {
    if args != [] {
      KeepPartition(args[1..]);
      assert args == [args[0]] + args[1..];
    }
  }

  /** `getSources`: one pass over the arguments, Go files to the first
      list, everything else to the second. */
  method GetSources(args: seq<string>) returns (sources: seq<string>, others: seq<string>)
    ensures sources == Keep(args, true) && others == Keep(args, false)
    ensures multiset(sources) + multiset(others) == multiset(args)
  {
    sources, others := [], [];
    for i := 0 to |args|
      invariant sources == Keep(args[..i], true)
      invariant others == Keep(args[..i], false)
    {
      assert args[..i + 1] == args[..i] + [args[i]];
      KeepConcat(args[..i], [args[i]], true);
      KeepConcat(args[..i], [args[i]], false);
      assert Keep([args[i]], true) == if IsGoFile(args[i]) then [args[i]] else [];
      assert Keep([args[i]], false) == if IsGoFile(args[i]) then [] else [args[i]];
      if IsGoFile(args[i]) {
        sources := sources + [args[i]];
      } else {
        others := others + [args[i]];
      }
    }
    assert args[..|args|] == args;
    KeepPartition(args);
  }

  /** The three options of the wrapped tool the interceptor reads. */
  datatype Options = Options(output: string, packageName: string, importCfg: string)

  const NoOptions: Options := Options("", "", "")

  /** The flags that name those options. */
  predicate Captured(key: string)
  {
    key == "-o" || key == "-p" || key == "-importcfg"
  }

  /** The option a captured flag names. */
  function Field(opt: Options, key: string): string
  {
    if key == "-o" then opt.output
    else if key == "-p" then opt.packageName
    else opt.importCfg
  }

  /** `opt` with the option `key` names set to `value`; any other key
      leaves it as it is. */
  function SetOption(opt: Options, key: string, value: string): (r: Options)
    ensures forall k :: Captured(k) ==> Field(r, k) == if k == key then value else Field(opt, k)
    ensures !Captured(key) ==> r == opt
  {
    if key == "-o" then opt.(output := value)
    else if key == "-p" then opt.(packageName := value)
    else if key == "-importcfg" then opt.(importCfg := value)
    else opt
  }

  /** `strings.SplitN(s, "=", 2)`: the whole string, or the parts before and
      after the first `=`. */
  function SplitEquals(s: string): (parts: seq<string>)
    ensures 1 <= |parts| <= 2
    ensures |parts| == 2 <==> '=' in s
    ensures |parts| == 1 ==> parts[0] == s
    ensures |parts| == 2 ==> parts[0] + "=" + parts[1] == s && '=' !in parts[0]
  {
    var i := IndexOf(s, '=');
    if i < 0 then [s]
    else
      assert s == s[..i] + "=" + s[i + 1..];
      [s[..i], s[i + 1..]]
  }

  /** Which part of a `-flag=value` token is read as the value: the source
      reads index 2 of the two-part split, which is out of range and
      panics; index 1 is the value. */
  datatype EqualsForm = ReadsIndexTwo | ReadsValue

  /** `parseOption`: one step of the scan, the number of tokens it consumes
      and the options after it. */
  function ParseOption(arg1: string, arg2: string, opt: Options, form: EqualsForm): (r: Outcome<(nat, Options)>)
    ensures r.Ok? || r.Panic?
    ensures r.Panic? <==> form == ReadsIndexTwo && '=' in arg1 && Captured(SplitEquals(arg1)[0])
    ensures r.Ok? ==> r.value.0 == 1 || r.value.0 == 2
    ensures r.Ok? ==> (r.value.0 == 2 <==> '=' !in arg1 && (arg2 == "" || arg2[0] != '-'))
    ensures r.Ok? && r.value.0 == 2 ==> r.value.1 == SetOption(opt, arg1, arg2)
    ensures r.Ok? && r.value.0 == 1 && '=' !in arg1 ==> r.value.1 == opt
    ensures r.Ok? && '=' in arg1 ==> r.value.1 == SetOption(opt, SplitEquals(arg1)[0], SplitEquals(arg1)[1])
  {
    var parts := SplitEquals(arg1);
    if |parts| == 2 then
      if !Captured(parts[0]) then Ok((1, opt))
      else if form == ReadsIndexTwo then Panic("index out of range [2] with length 2")
      else Ok((1, SetOption(opt, parts[0], parts[1])))
    else if arg2 == "" || arg2[0] != '-' then Ok((2, SetOption(opt, arg1, arg2)))
    else Ok((1, opt))
  }

  /** The loop of `getOptions` over `args`, from the options `opt`. It stops
      at the first token it would start a step on that does not start with
      `-` (see `StopAt`), and indexing the first byte of an empty token there
      panics. */
  function Scan(args: seq<string>, opt: Options, form: EqualsForm): (r: Outcome<Options>)
    ensures r.Ok? || r.Panic?
    ensures args != [] && args[0] == "" ==> r.Panic?
    ensures args != [] && args[0] != "" && args[0][0] != '-' ==> r == Ok(opt)
    decreases |args|
  {
    if args == [] then Ok(opt)
    else if args[0] == "" then Panic("index out of range [0] with length 0")
    else if args[0][0] != '-' then Ok(opt)
    else
      var step := ParseOption(args[0], if |args| > 1 then args[1] else "", opt, form);
      if !step.Ok? then Fail(step)
      else Scan(args[if step.value.0 < |args| then step.value.0 else |args|..], step.value.1, form)
  }

  /** `getOptions`: the scan from no options. */
  function GetOptions(args: seq<string>, form: EqualsForm): Outcome<Options>
  {
    Scan(args, NoOptions, form)
  }

  /** `v` is the option's starting value, or some token is the option's
      flag and `v` the token after it (empty when there is none), or, when
      the `=` form is read, some token is the flag, `=`, and `v`. */
  predicate Given(v: string, start: string, key: string, args: seq<string>, form: EqualsForm)
  {
    || v == start
    || (exists i :: 0 <= i < |args| && FlagThen(args, i, key, v))
    || (form == ReadsValue && exists i :: 0 <= i < |args| && args[i] == key + "=" + v)
  }

  /** Token i is `key` and `v` is the token after it, or empty at the end. */
  predicate FlagThen(args: seq<string>, i: nat, key: string, v: string)
    requires i < |args|
  {
    args[i] == key && (if i + 1 < |args| then v == args[i + 1] else v == "")
  }

  /** Only `-o`, `-p` and `-importcfg` set anything, and each sets its own
      option to the value that follows it. */
  lemma {:induction false} ScanOrigin(args: seq<string>, opt: Options, form: EqualsForm, key: string)
    requires Captured(key)
    ensures Scan(args, opt, form).Ok? ==> Given(Field(Scan(args, opt, form).value, key), Field(opt, key), key, args, form)
    decreases |args|
  {
    var r := Scan(args, opt, form);
    if r.Ok? && args != [] && args[0] != "" && args[0][0] == '-' {
      var step := ParseOption(args[0], if |args| > 1 then args[1] else "", opt, form);
      var k := if step.value.0 < |args| then step.value.0 else |args|;
      var mid := step.value.1;
      ScanOrigin(args[k..], mid, form, key);
      var v := Field(r.value, key);
      GivenShift(v, Field(mid, key), key, args, k, form);
      if v == Field(mid, key) && Field(mid, key) != Field(opt, key) {
        if '=' in args[0] {
          var parts := SplitEquals(args[0]);
          assert parts[0] == key;
          assert args[0] == key + "=" + v;
        } else {
          assert FlagThen(args, 0, key, v);
        }
      }
    }
  }

  /** A value given in a suffix of the tokens is given in all of them. */
  lemma GivenShift(v: string, start: string, key: string, args: seq<string>, k: nat, form: EqualsForm)
    requires k <= |args|
    requires Given(v, start, key, args[k..], form)
    ensures Given(v, start, key, args, form)
  {
    var rest := args[k..];
    if v != start {
      if exists i :: 0 <= i < |rest| && FlagThen(rest, i, key, v) {
        var i :| 0 <= i < |rest| && FlagThen(rest, i, key, v);
        assert FlagThen(args, k + i, key, v);
      } else {
        var i :| 0 <= i < |rest| && rest[i] == key + "=" + v;
        assert args[k + i] == key + "=" + v;
      }
    }
  }

  /** Two adjacent occurrences of a flag: the second one's value wins and
      the scan goes on after it. */
  lemma AdjacentOverride(key: string, a: string, b: string, rest: seq<string>, opt: Options, form: EqualsForm)
    requires key != [] && key[0] == '-' && '=' !in key
    requires a == [] || a[0] != '-'
    requires b == [] || b[0] != '-'
    ensures Scan([key, a, key, b] + rest, opt, form) == Scan(rest, SetOption(opt, key, b), form)
  {
    var args := [key, a, key, b] + rest;
    assert args[2..] == [key, b] + rest;
    assert ([key, b] + rest)[2..] == rest;
    assert SetOption(SetOption(opt, key, a), key, b) == SetOption(opt, key, b);
  }

  /** A token the scan treats as a flag: non-empty and starting with `-`. */
  predicate IsFlag(t: string)
  {
    t != "" && t[0] == '-'
  }

  /** The number of tokens the step at token i consumes. It does not depend
      on the options: one for the `=` form or when the next token is a flag,
      two otherwise (the value is empty past the end). */
  function Width(args: seq<string>, i: nat): nat
    requires i < |args|
  {
    if '=' in args[i] then 1
    else if i + 1 >= |args| || args[i + 1] == "" || args[i + 1][0] != '-' then 2
    else 1
  }

  /** The token the step after the one at token i starts on (the end when
      the step runs past it). */
  function Next(args: seq<string>, i: nat): (j: nat)
    requires i < |args|
    ensures i < j <= |args|
  {
    if i + Width(args, i) < |args| then i + Width(args, i) else |args|
  }

  /** The scan, having started a step at token `from`, starts one at token
      i: every step before i began on a flag. */
  predicate StepsTo(args: seq<string>, from: nat, i: nat)
    decreases i - from
  {
    from == i || (from < i && from < |args| && IsFlag(args[from]) && StepsTo(args, Next(args, from), i))
  }

  /** Where the scan from token `from` stops: the first token it would
      start a step on that is not a flag, or the end. */
  function StopAt(args: seq<string>, from: nat): (s: nat)
    requires from <= |args|
    ensures from <= s <= |args|
    decreases |args| - from
  {
    if from == |args| || !IsFlag(args[from]) then from else StopAt(args, Next(args, from))
  }

  /** Some step the scan from token `from` takes before it stops is a
      captured flag in the `=` form. */
  predicate EqualsStepBefore(args: seq<string>, from: nat)
    requires from <= |args|
    decreases |args| - from
  {
    && from < |args| && IsFlag(args[from])
    && (('=' in args[from] && Captured(SplitEquals(args[from])[0])) || EqualsStepBefore(args, Next(args, from)))
  }

  /** One step of the scan at a flag token: it consumes `Width` tokens and
      the scan goes on from `Next` with the step's options, or the step
      panics and so does the scan. */
  lemma ScanStep(args: seq<string>, from: nat, opt: Options, form: EqualsForm)
    requires from < |args| && IsFlag(args[from])
    ensures var step := ParseOption(args[from], if from + 1 < |args| then args[from + 1] else "", opt, form);
      && (step.Ok? ==> step.value.0 == Width(args, from) && Scan(args[from..], opt, form) == Scan(args[Next(args, from)..], step.value.1, form))
      && (!step.Ok? ==> Scan(args[from..], opt, form).Panic? && step.Panic?)
  {
    var s := args[from..];
    var arg2 := if from + 1 < |args| then args[from + 1] else "";
    var step := ParseOption(args[from], arg2, opt, form);
    assert Scan(s, opt, form) == if !step.Ok? then Fail(step) else Scan(s[if step.value.0 < |s| then step.value.0 else |s|..], step.value.1, form) by {
      assert s[0] == args[from] && (if |s| > 1 then s[1] else "") == arg2 by {
        assert |s| > 1 ==> s[1] == args[from + 1];
      }
      ScanUnfold(s, opt, form);
    }
    if step.Ok? {
      var k := step.value.0;
      assert k == Width(args, from) by {
        StepWidth(args, from, opt, form);
      }
      assert s[if k < |s| then k else |s|..] == args[Next(args, from)..];
    }
  }

  /** One unfolding of the scan at a flag token. */
  lemma ScanUnfold(s: seq<string>, opt: Options, form: EqualsForm)
    requires s != [] && IsFlag(s[0])
    ensures var step := ParseOption(s[0], if |s| > 1 then s[1] else "", opt, form);
      Scan(s, opt, form) == if !step.Ok? then Fail(step) else Scan(s[if step.value.0 < |s| then step.value.0 else |s|..], step.value.1, form)
  {
  }

  /** The tokens a step consumes are `Width`. */
  lemma StepWidth(args: seq<string>, from: nat, opt: Options, form: EqualsForm)
    requires from < |args|
    ensures var step := ParseOption(args[from], if from + 1 < |args| then args[from + 1] else "", opt, form);
      step.Ok? ==> step.value.0 == Width(args, from)
  {
  }

  /** The scan panics exactly when the token it stops on is empty, or, as
      written, when one of its steps is a captured flag in the `=` form; an
      empty token consumed as a value does no harm. */
  lemma {:induction false} ScanPanics(args: seq<string>, from: nat, opt: Options, form: EqualsForm)
    requires from <= |args|
    ensures Scan(args[from..], opt, form).Panic? <==>
      || (StopAt(args, from) < |args| && args[StopAt(args, from)] == "")
      || (form == ReadsIndexTwo && EqualsStepBefore(args, from))
    decreases |args| - from
  {
    if from < |args| {
      if IsFlag(args[from]) {
        ScanStep(args, from, opt, form);
        var step := ParseOption(args[from], if from + 1 < |args| then args[from + 1] else "", opt, form);
        if step.Ok? {
          ScanPanics(args, Next(args, from), step.value.1, form);
        }
      } else {
        assert args[from..][0] == args[from];
      }
    }
  }

  /** The scan ends at the first token it would start a step on that is
      not a flag: unless that token is empty, the tokens from it on have no
      effect. */
  lemma {:induction false} ScanIgnoresAfterStop(args: seq<string>, from: nat, opt: Options, form: EqualsForm)
    requires from <= |args|
    requires StopAt(args, from) == |args| || args[StopAt(args, from)] != ""
    ensures Scan(args[from..], opt, form) == Scan(args[from..StopAt(args, from)], opt, form)
    decreases |args| - from
  {
    var s := StopAt(args, from);
    if from == s {
      assert args[from..s] == [];
      if from < |args| {
        assert args[from..][0] == args[from];
      }
    } else {
      var t := args[..s];
      assert t[from] == args[from];
      assert from + 1 < s ==> t[from + 1] == args[from + 1];
      assert Width(t, from) == Width(args, from) && Next(t, from) == Next(args, from);
      assert ParseOption(args[from], if from + 1 < |args| then args[from + 1] else "", opt, form)
          == ParseOption(t[from], if from + 1 < |t| then t[from + 1] else "", opt, form);
      ScanStep(args, from, opt, form);
      ScanStep(t, from, opt, form);
      assert t[from..] == args[from..s];
      var step := ParseOption(args[from], if from + 1 < |args| then args[from + 1] else "", opt, form);
      if step.Ok? {
        ScanIgnoresAfterStop(args, Next(args, from), step.value.1, form);
        assert t[Next(args, from)..] == args[Next(args, from)..s];
      }
    }
  }

  /** A scan that reaches token i goes on from there as a scan of the
      tokens from i, with the options gathered so far. */
  lemma {:induction false} ScanSuffix(args: seq<string>, opt: Options, form: EqualsForm, from: nat, i: nat)
    requires from <= i <= |args| && StepsTo(args, from, i)
    ensures Scan(args[from..], opt, form).Ok? ==> exists o :: Scan(args[from..], opt, form) == Scan(args[i..], o, form)
    decreases i - from
  {
    if from < i && Scan(args[from..], opt, form).Ok? {
      ScanStep(args, from, opt, form);
      var step := ParseOption(args[from], if from + 1 < |args| then args[from + 1] else "", opt, form);
      ScanSuffix(args, step.value.1, form, Next(args, from), i);
    }
  }

  /** Tokens that neither are the flag `key` nor give it in the `=` form. */
  predicate Silent(tokens: seq<string>, key: string)
  {
    forall t :: t in tokens ==> SplitEquals(t)[0] != key
  }

  /** Tokens that never name `key` leave its option as it was. */
  lemma SilentKeeps(rest: seq<string>, o: Options, form: EqualsForm, key: string)
    requires Captured(key) && Silent(rest, key)
    ensures Scan(rest, o, form).Ok? ==> Field(Scan(rest, o, form).value, key) == Field(o, key)
  {
    ScanOrigin(rest, o, form, key);
    if Scan(rest, o, form).Ok? {
      var v := Field(Scan(rest, o, form).value, key);
      assert SplitEquals(key) == [key];
      forall i | 0 <= i < |rest| ensures !FlagThen(rest, i, key, v) {
        assert rest[i] in rest;
      }
      forall i | 0 <= i < |rest| ensures rest[i] != key + "=" + v {
        assert rest[i] in rest;
        IndexOfAfter(key, '=', v);
      }
    }
  }

  /** A captured flag followed by a value sets the option and the scan goes
      on after the value. */
  lemma FlagValueStep(key: string, b: string, rest: seq<string>, o: Options, form: EqualsForm)
    requires Captured(key) && (b == "" || b[0] != '-')
    ensures Scan([key, b] + rest, o, form) == Scan(rest, SetOption(o, key, b), form)
  {
    var tail := [key, b] + rest;
    assert tail[0] == key && tail[1] == b && tail[2..] == rest;
    assert SplitEquals(key) == [key];
  }

  /** A later occurrence of a flag overrides every earlier one: when the
      scan starts a step at `key` followed by the value b, and no later
      token names `key`, the option ends as b, whatever came before. */
  lemma LaterOverrides(pre: seq<string>, key: string, b: string, rest: seq<string>, opt: Options, form: EqualsForm)
    requires Captured(key) && (b == "" || b[0] != '-')
    requires StepsTo(pre + [key, b] + rest, 0, |pre|)
    requires Silent(rest, key)
    ensures Scan(pre + [key, b] + rest, opt, form).Ok? ==> Field(Scan(pre + [key, b] + rest, opt, form).value, key) == b
  {
    var args := pre + [key, b] + rest;
    var r := Scan(args, opt, form);
    if r.Ok? {
      var o: Options :| r == Scan([key, b] + rest, o, form) by {
        assert args[0..] == args && args[|pre|..] == [key, b] + rest;
        ScanSuffix(args, opt, form, 0, |pre|);
      }
      FlagValueStep(key, b, rest, o, form);
      SilentKeeps(rest, SetOption(o, key, b), form, key);
    }
  }

  /** As written, the `=` form of a captured flag panics, whatever the value
      and whatever follows. */
  lemma EqualsFormPanics(key: string, value: string, rest: seq<string>, opt: Options)
    requires Captured(key)
    ensures Scan([key + "=" + value] + rest, opt, ReadsIndexTwo).Panic?
  {
    IndexOfAfter(key, '=', value);
    assert key + "=" + value == key + ['='] + value;
    assert SplitEquals(key + "=" + value)[0] == key;
  }

  /** Read as intended, the `=` form sets the option to the text after the
      first `=` and consumes one token. */
  lemma EqualsFormSets(key: string, value: string, rest: seq<string>, opt: Options)
    requires Captured(key)
    ensures Scan([key + "=" + value] + rest, opt, ReadsValue) == Scan(rest, SetOption(opt, key, value), ReadsValue)
  {
    IndexOfAfter(key, '=', value);
    assert key + "=" + value == key + ['='] + value;
    var parts := SplitEquals(key + "=" + value);
    assert parts[0] == key;
    assert parts[1] == value;
    assert ([key + "=" + value] + rest)[1..] == rest;
  }
}
