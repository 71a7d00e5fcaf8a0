/** The command-line entry point `main` of sesmailcmd.py: the fold of the
    `(option, value)` pairs that `getopt` returns into the constructor's
    keyword arguments, and what `main` does with the result. */
module SesMailCmd {
  import opened Builtins
  import opened Listener

  /** Each `if` of the loop body tests the option on its own; an option can
      pass more than one. The tuple tests are exact; the last two are written
      `option in ('--aws_id')`, which without a trailing comma is a substring
      test on a string. */
  predicate IsHelp(o: string) { o == "-h" || o == "--help" }
  predicate IsProgram(o: string) { o == "-p" || o == "--program" }
  predicate IsExclude(o: string) { o == "-e" || o == "--exclude" }
  predicate IsAny(o: string) { o == "-a" || o == "--any" }
  predicate IsEmailTo(o: string) { o == "-m" || o == "--emailto" }
  predicate IsEmailFrom(o: string) { o == "-f" || o == "--emailfrom" }
  predicate IsRegion(o: string) { o == "-r" || o == "--region" }
  predicate IsOptionalHeader(o: string) { o == "-o" || o == "--optionalheader" }
  predicate IsAwsId(o: string) { Contains("--aws_id", o) }
  predicate IsAwsSecret(o: string) { Contains("--aws_secret", o) }

  /** `dakwargs` before the loop: empty `programs` and `excluded`, `any`
      false, no other key. */
  const Defaults := Kwargs([], [], false, None, None, None, None, None, None)

  /** One pass of the loop body for an option other than help. The tests
      are independent and each one writes its own key, so every key is
      updated on its own. */
  function Apply(kw: Kwargs, option: string, value: string): Kwargs {
    Kwargs(
      programs := kw.programs + (if IsProgram(option) then [value] else []),
      excluded := kw.excluded + (if IsExclude(option) then [value] else []),
      any := kw.any || IsAny(option),
      emailto := if IsEmailTo(option) then Some(Address(value)) else kw.emailto,
      emailfrom := if IsEmailFrom(option) then Some(value) else kw.emailfrom,
      awsId := if IsAwsId(option) then Some(value) else kw.awsId,
      awsSecret := if IsAwsSecret(option) then Some(value) else kw.awsSecret,
      optionalheader := if IsOptionalHeader(option) then Some(value) else kw.optionalheader,
      region := if IsRegion(option) then Some(value) else kw.region)
  }

  /** Where the loop ends: `usage()` exits the process at the first help
      option, otherwise the folded keyword arguments. */
  datatype Folded = Usage | Options(kw: Kwargs)

  function FoldFrom(kw: Kwargs, opts: seq<(string, string)>): Folded
    decreases |opts|
  {
    if opts == [] then Options(kw)
    else if IsHelp(opts[0].0) then Usage
    else FoldFrom(Apply(kw, opts[0].0, opts[0].1), opts[1..])
  }

  /** The `for option, value in opts` loop of `main`, updating `dakwargs` in
      place. */
  method ParseOptions(opts: seq<(string, string)>) returns (r: Folded)
    ensures r == FoldFrom(Defaults, opts)
  {
    var dakwargs := Defaults;
    var i := 0;
    while i < |opts|
      invariant 0 <= i <= |opts|
      invariant FoldFrom(dakwargs, opts[i..]) == FoldFrom(Defaults, opts)
    {
      var (option, value) := opts[i];
      assert opts[i..][1..] == opts[i + 1..];
      if IsHelp(option) {
        return Usage;
      }
      ghost var before := dakwargs;
      if IsProgram(option) {
        dakwargs := dakwargs.(programs := dakwargs.programs + [value]);
      }
      if IsExclude(option) {
        dakwargs := dakwargs.(excluded := dakwargs.excluded + [value]);
      }
      if IsAny(option) {
        dakwargs := dakwargs.(any := true);
      }
      if IsEmailTo(option) {
        dakwargs := dakwargs.(emailto := Some(Address(value)));
      }
      if IsEmailFrom(option) {
        dakwargs := dakwargs.(emailfrom := Some(value));
      }
      if IsRegion(option) {
        dakwargs := dakwargs.(region := Some(value));
      }
      if IsOptionalHeader(option) {
        dakwargs := dakwargs.(optionalheader := Some(value));
      }
      if IsAwsId(option) {
        dakwargs := dakwargs.(awsId := Some(value));
      }
      if IsAwsSecret(option) {
        dakwargs := dakwargs.(awsSecret := Some(value));
      }
      assert dakwargs == Apply(before, option, value);
      i := i + 1;
    }
    assert opts[i..] == [];
    return Options(dakwargs);
  }

  /** The values of the options that pass `p`, in command-line order. */
  function ValuesWhere(opts: seq<(string, string)>, p: string -> bool): seq<string>
    decreases |opts|
  {
    if opts == [] then [] else (if p(opts[0].0) then [opts[0].1] else []) + ValuesWhere(opts[1..], p)
  }

  /** The value of the last option that passes `p`, if any. */
  function LastWhere(opts: seq<(string, string)>, p: string -> bool): Option<string>
    decreases |opts|
  {
    if opts == [] then None
    else
      var later := LastWhere(opts[1..], p);
      if later.Some? then later else if p(opts[0].0) then Some(opts[0].1) else None
  }

  function OrElse<T>(first: Option<T>, otherwise: Option<T>): Option<T> {
    if first.Some? then first else otherwise
  }

  function AsAddress(v: Option<string>): Option<EmailTo> {
    if v.Some? then Some(Address(v.value)) else None
  }

  predicate HasHelp(opts: seq<(string, string)>) {
    exists i :: 0 <= i < |opts| && IsHelp(opts[i].0)
  }

  predicate HasOption(opts: seq<(string, string)>, p: string -> bool) {
    exists i :: 0 <= i < |opts| && p(opts[i].0)
  }

  /** The fold stops with `usage()` exactly when some option asks for help. */
  lemma {:induction false} UsageIffHelp(kw: Kwargs, opts: seq<(string, string)>)
    ensures FoldFrom(kw, opts).Usage? <==> HasHelp(opts)
    decreases |opts|
  {
    if opts != [] && !IsHelp(opts[0].0) {
      var rest := opts[1..];
      UsageIffHelp(Apply(kw, opts[0].0, opts[0].1), rest);
      if HasHelp(opts) {
        var i :| 0 <= i < |opts| && IsHelp(opts[i].0);
        assert rest[i - 1] == opts[i];
      }
      if HasHelp(rest) {
        var i :| 0 <= i < |rest| && IsHelp(rest[i].0);
        assert opts[i + 1] == rest[i];
      }
    }
  }

  lemma HasOptionCons(opts: seq<(string, string)>, p: string -> bool)
    requires opts != []
    ensures HasOption(opts, p) <==> p(opts[0].0) || HasOption(opts[1..], p)
  {
    var rest := opts[1..];
    if HasOption(opts, p) && !p(opts[0].0) {
      var i :| 0 <= i < |opts| && p(opts[i].0);
      assert rest[i - 1] == opts[i];
    }
    if HasOption(rest, p) {
      var i :| 0 <= i < |rest| && p(rest[i].0);
      assert opts[i + 1] == rest[i];
    }
  }

  lemma NoHelpTail(opts: seq<(string, string)>)
    requires opts != [] && !HasHelp(opts)
    ensures !IsHelp(opts[0].0) && !HasHelp(opts[1..])
  {
    var rest := opts[1..];
    forall i | 0 <= i < |rest| ensures !IsHelp(rest[i].0) {
      assert rest[i] == opts[i + 1];
    }
  }

  /** Without a help option, the fold appends every `-p`/`--program` and every
      `-e`/`--exclude` value in order and sets `any` once `-a`/`--any`
      appears. */
  lemma {:induction false} FoldFromLists(kw: Kwargs, opts: seq<(string, string)>)
    requires !HasHelp(opts)
    ensures FoldFrom(kw, opts).Options?
    ensures var r := FoldFrom(kw, opts).kw;
            && r.programs == kw.programs + ValuesWhere(opts, IsProgram)
            && r.excluded == kw.excluded + ValuesWhere(opts, IsExclude)
            && r.any == (kw.any || HasOption(opts, IsAny))
    decreases |opts|
  {
    if opts == [] {
      assert !HasOption(opts, IsAny);
    } else {
      NoHelpTail(opts);
      var rest := opts[1..];
      var (o, v) := opts[0];
      var kw' := Apply(kw, o, v);
      FoldFromLists(kw', rest);
      HasOptionCons(opts, IsAny);
      var p := if IsProgram(o) then [v] else [];
      var e := if IsExclude(o) then [v] else [];
      assert ValuesWhere(opts, IsProgram) == p + ValuesWhere(rest, IsProgram);
      assert ValuesWhere(opts, IsExclude) == e + ValuesWhere(rest, IsExclude);
      assert kw'.programs == kw.programs + p;
      assert kw'.excluded == kw.excluded + e;
      assert kw.programs + (p + ValuesWhere(rest, IsProgram)) == kw.programs + p + ValuesWhere(rest, IsProgram);
      assert kw.excluded + (e + ValuesWhere(rest, IsExclude)) == kw.excluded + e + ValuesWhere(rest, IsExclude);
    }
  }

  /** Without a help option, each single-valued key ends at the value of the
      last option that sets it, and keeps its earlier value when none does. */
  lemma {:induction false} FoldFromLastWins(kw: Kwargs, opts: seq<(string, string)>)
    requires !HasHelp(opts)
    ensures FoldFrom(kw, opts).Options?
    ensures var r := FoldFrom(kw, opts).kw;
            && r.emailto == OrElse(AsAddress(LastWhere(opts, IsEmailTo)), kw.emailto)
            && r.emailfrom == OrElse(LastWhere(opts, IsEmailFrom), kw.emailfrom)
            && r.region == OrElse(LastWhere(opts, IsRegion), kw.region)
            && r.optionalheader == OrElse(LastWhere(opts, IsOptionalHeader), kw.optionalheader)
            && r.awsId == OrElse(LastWhere(opts, IsAwsId), kw.awsId)
            && r.awsSecret == OrElse(LastWhere(opts, IsAwsSecret), kw.awsSecret)
    decreases |opts|
  {
    if opts != [] {
      NoHelpTail(opts);
      FoldFromLastWins(Apply(kw, opts[0].0, opts[0].1), opts[1..]);
    }
  }

  /** From the defaults: the lists hold exactly the selected values, in order;
      with no options at all the defaults stand. */
  lemma ParsedOptions(opts: seq<(string, string)>)
    requires !HasHelp(opts)
    ensures FoldFrom(Defaults, opts).Options?
    ensures var r := FoldFrom(Defaults, opts).kw;
            && r.programs == ValuesWhere(opts, IsProgram)
            && r.excluded == ValuesWhere(opts, IsExclude)
            && r.any == HasOption(opts, IsAny)
            && r.optionalheader == LastWhere(opts, IsOptionalHeader)
            && r.region == LastWhere(opts, IsRegion)
  {
    FoldFromLists(Defaults, opts);
    FoldFromLastWins(Defaults, opts);
    assert [] + ValuesWhere(opts, IsProgram) == ValuesWhere(opts, IsProgram);
    assert [] + ValuesWhere(opts, IsExclude) == ValuesWhere(opts, IsExclude);
  }

  /** `-a` is a substring of both `--aws_id` and `--aws_secret`: wherever it
      appears, besides setting `any` it sets both credentials to its value,
      and nothing else changes. */
  lemma DashAlsoSetsCredentials(kw: Kwargs, v: string)
    ensures Apply(kw, "-a", v) == kw.(any := true, awsId := Some(v), awsSecret := Some(v))
  {
    assert OccursAt("--aws_id", "-a", 1);
    assert OccursAt("--aws_secret", "-a", 1);
  }

  /** So a `-a` after `--aws_id` or `--aws_secret` replaces the credential
      given there by the empty value `getopt` pairs with `-a`. */
  lemma DashAOverridesCredentials(key: string, secret: string)
    ensures var r := FoldFrom(Defaults, [("--aws_id", key), ("--aws_secret", secret), ("-a", "")]);
            && r.Options?
            && r.kw.any
            && r.kw.awsId == Some("")
            && r.kw.awsSecret == Some("")
  {
    var opts := [("--aws_id", key), ("--aws_secret", secret), ("-a", "")];
    var kw1 := Apply(Defaults, "--aws_id", key);
    var kw2 := Apply(kw1, "--aws_secret", secret);
    assert opts[1..] == [("--aws_secret", secret), ("-a", "")];
    assert opts[1..][1..] == [("-a", "")];
    assert FoldFrom(Defaults, opts) == FoldFrom(kw1, opts[1..]);
    assert FoldFrom(kw1, opts[1..]) == FoldFrom(kw2, opts[1..][1..]);
    assert FoldFrom(kw2, [("-a", "")]) == Options(Apply(kw2, "-a", ""));
    DashAlsoSetsCredentials(kw2, "");
  }

  /** The option names `getopt` can return for the short and long options
      `main` declares. The missing comma glues `optionalheader=` and
      `emailto=` into one long option, which `getopt` returns as
      `--optionalheader=emailto`. */
  const GetoptNames: seq<string> := [
    "-h", "-p", "-a", "-o", "-e", "-m", "-f", "-r",
    "--help", "--program", "--exclude", "--any", "--optionalheader=emailto",
    "--emailfrom", "--region", "--aws_id", "--aws_secret"]

  /** A character of a piece of `hay` is a character of `hay`. */
  lemma ContainsChar(hay: string, needle: string, j: nat)
    requires Contains(hay, needle) && j < |needle|
    ensures needle[j] in hay
  {
    var i: nat :| i <= |hay| && OccursAt(hay, needle, i);
    assert needle[j] == hay[i..i + |needle|][j] == hay[i + j];
  }

  /** A piece of `hay` that starts with `-` starts at one of the places where
      `hay` has a `-`. */
  lemma ContainsDash(hay: string, needle: string) returns (i: nat)
    requires Contains(hay, needle) && |needle| >= 2 && needle[0] == '-'
    ensures i + |needle| <= |hay| && hay[i] == '-' && hay[i + 1] == needle[1]
  {
    i :| i <= |hay| && OccursAt(hay, needle, i);
    assert hay[i..i + |needle|][0] == hay[i];
    assert hay[i..i + |needle|][1] == hay[i + 1];
  }

  /** Of the option names `getopt` can return, only `-a` and `--aws_id` set
      the access key: every other name ends in a character `--aws_id` does
      not hold. */
  lemma AccessKeyTestMatches(o: string)
    requires o in GetoptNames
    ensures IsAwsId(o) <==> o == "-a" || o == "--aws_id"
  {
    assert OccursAt("--aws_id", "-a", 1);
    assert OccursAt("--aws_id", "--aws_id", 0);
    if o != "-a" && o != "--aws_id" && IsAwsId(o) {
      ContainsChar("--aws_id", o, |o| - 1);
    }
  }

  /** In `--aws_secret` a `-` is followed only by `-` or `a`. */
  lemma DashPairsOfSecret(c: char)
    requires c != '-' && c != 'a'
    ensures !Contains("--aws_secret", ['-', c])
  {
    var hay := "--aws_secret";
    if Contains(hay, ['-', c]) {
      var i := ContainsDash(hay, ['-', c]);
    }
  }

  /** These option names end in a character `--aws_secret` does not hold. */
  lemma SecretTestRejectsByLastChar(o: string)
    requires o in ["-h", "-p", "-o", "-m", "-f", "--help", "--program", "--any",
                   "--optionalheader=emailto", "--emailfrom", "--region", "--aws_id"]
    ensures !IsAwsSecret(o)
  {
    if IsAwsSecret(o) {
      ContainsChar("--aws_secret", o, |o| - 1);
    }
  }

  /** Of the option names `getopt` can return, only `-a` and `--aws_secret`
      set the secret: `-e` and `-r` do not occur in `--aws_secret`,
      `--exclude` holds a `d`, and every other name ends in a character
      `--aws_secret` does not hold. */
  lemma SecretTestMatches(o: string)
    requires o in GetoptNames
    ensures IsAwsSecret(o) <==> o == "-a" || o == "--aws_secret"
  {
    assert OccursAt("--aws_secret", "-a", 1);
    assert OccursAt("--aws_secret", "--aws_secret", 0);
    if o == "-e" || o == "-r" {
      DashPairsOfSecret(o[1]);
      assert o == ['-', o[1]];
    } else if o == "--exclude" {
      if IsAwsSecret(o) {
        ContainsChar("--aws_secret", o, |o| - 2);
      }
    } else if o != "-a" && o != "--aws_secret" {
      SecretTestRejectsByLastChar(o);
    }
  }

  /** What `main` does after the loop: it stops with the usage text, returns
      when not run under supervisord, fails with `TypeError` when the
      arguments hold a key the constructor does not take, and otherwise builds
      the listener from the arguments and runs it. */
  datatype Startup = ShowUsage | NotUnderSupervisor | UnexpectedKeyword(name: string) | Listen(kw: Kwargs)

  function Main(opts: seq<(string, string)>, underSupervisor: bool): Startup {
    match FoldFrom(Defaults, opts)
    case Usage => ShowUsage
    case Options(kw) =>
      if !underSupervisor then NotUnderSupervisor
      else if kw.region.Some? then UnexpectedKeyword("region")
      else Listen(kw)
  }

  /** `-r`/`--region` is folded into a `region` key that `SesMail.__init__`
      does not accept, so under supervisord a command line with it never
      starts the listener; without it, the listener starts with the folded
      selection. */
  lemma RegionIsRejected(opts: seq<(string, string)>)
    requires !HasHelp(opts)
    ensures HasOption(opts, IsRegion) ==> Main(opts, true) == UnexpectedKeyword("region")
    ensures !HasOption(opts, IsRegion) ==>
              && Main(opts, true).Listen?
              && KwargsConfig(Main(opts, true).kw)
                 == Decision.ListenerConfig(ValuesWhere(opts, IsProgram), ValuesWhere(opts, IsExclude),
                                            HasOption(opts, IsAny), LastWhere(opts, IsOptionalHeader))
  {
    ParsedOptions(opts);
    LastWhereFound(opts, IsRegion);
  }

  /** `LastWhere` finds a value exactly when some option passes the test. */
  lemma {:induction false} LastWhereFound(opts: seq<(string, string)>, p: string -> bool)
    ensures LastWhere(opts, p).Some? <==> HasOption(opts, p)
    decreases |opts|
  {
    if opts != [] {
      LastWhereFound(opts[1..], p);
      HasOptionCons(opts, p);
    }
  }
}
