/** The configuration-file entry point `main` of sesmail.py: the keyword
    arguments it reads from `/etc/superlanceadds.conf` and what it does with
    them. */
module SesMailConfig {
  import opened Builtins
  import opened Listener

  /** A configuration file as `ConfigParser` holds it after reading: for each
      section, its options under their lower-cased names. */
  type Ini = map<string, map<string, string>>

  /** The exceptions `ConfigParser.get` raises. */
  datatype ConfigError = NoSectionError(section: string) | NoOptionError(option: string, section: string)

  /** `config.get(section, option)`: the section must exist, then the option.
      `option` is the name after `optionxform`, which lower-cases it; the
      error carries that name. */
  function Get(ini: Ini, section: string, option: string): Result<string, ConfigError> {
    if section !in ini then Err(NoSectionError(section))
    else if option !in ini[section] then Err(NoOptionError(option, section))
    else Ok(ini[section][option])
  }

  /** The `dict(...)` call of `main`: its arguments are evaluated left to
      right, so the first failing `get` is the error that escapes. */
  function ConfigKwargs(ini: Ini): Result<Kwargs, ConfigError> {
    var included :- Get(ini, "Processes", "include");
    var exclude :- Get(ini, "Processes", "exclude");
    var all :- Get(ini, "Processes", "all");
    var awsId :- Get(ini, "Credentials", "awsid");
    var awsSecret :- Get(ini, "Credentials", "awssecret");
    var from :- Get(ini, "Email", "from");
    var to :- Get(ini, "Email", "to");
    Ok(Kwargs(
      programs := Split(included, ','),
      excluded := Split(exclude, ','),
      any := all != "",
      emailto := Some(AddressList(Split(to, ','))),
      emailfrom := Some(from),
      awsId := Some(awsId),
      awsSecret := Some(awsSecret),
      optionalheader := None,
      region := None))
  }

  /** The options `main` reads, in the order it reads them, under their
      folded names (`Include`, `Exclude`, `All`, `AwsId`, `AwsSecret`,
      `From`, `To` in the source). */
  const ConfigKeys: seq<(string, string)> := [
    ("Processes", "include"), ("Processes", "exclude"), ("Processes", "all"),
    ("Credentials", "awsid"), ("Credentials", "awssecret"),
    ("Email", "from"), ("Email", "to")]

  /** The error of the first key in `keys` that the file lacks, if any. */
  function FirstMissing(ini: Ini, keys: seq<(string, string)>): Option<ConfigError>
    decreases |keys|
  {
    if keys == [] then None
    else
      var r := Get(ini, keys[0].0, keys[0].1);
      if r.Err? then Some(r.error) else FirstMissing(ini, keys[1..])
  }

  /** `main` fails exactly when the file lacks one of the seven keys, and then
      with the error for the first of them in reading order. */
  lemma ConfigErrors(ini: Ini)
    ensures ConfigKwargs(ini).Err? <==> FirstMissing(ini, ConfigKeys).Some?
    ensures ConfigKwargs(ini).Err? ==> ConfigKwargs(ini).error == FirstMissing(ini, ConfigKeys).value
  {
    var k := ConfigKeys;
    assert k[1..][1..][1..][1..][1..][1..][1..] == [];
  }

  /** When the file holds every key: the process lists and the recipients
      are the comma-separated pieces of their values (one more piece than
      there are commas, and joined back they give the value), `any` is the
      truthiness of the `All` text, so any non-empty text such as `False`
      selects every process, the credentials and the sender are taken as
      written, and no subject header is set. */
  lemma ConfigValues(ini: Ini)
    requires ConfigKwargs(ini).Ok?
    ensures "Processes" in ini && "Credentials" in ini && "Email" in ini
    ensures var p, cr, e := ini["Processes"], ini["Credentials"], ini["Email"];
            "include" in p && "exclude" in p && "all" in p && "awsid" in cr && "awssecret" in cr
            && "from" in e && "to" in e
    ensures var kw := ConfigKwargs(ini).value;
            var p, cr, e := ini["Processes"], ini["Credentials"], ini["Email"];
            && kw.programs == Split(p["include"], ',')
            && |kw.programs| == Count(p["include"], ',') + 1
            && Join(kw.programs, ',') == p["include"]
            && kw.excluded == Split(p["exclude"], ',')
            && |kw.excluded| == Count(p["exclude"], ',') + 1
            && Join(kw.excluded, ',') == p["exclude"]
            && kw.any == (p["all"] != "")
            && kw.emailto == Some(AddressList(Split(e["to"], ',')))
            && Join(kw.emailto.value.addrs, ',') == e["to"]
            && kw.emailfrom == Some(e["from"])
            && kw.awsId == Some(cr["awsid"]) && kw.awsSecret == Some(cr["awssecret"])
            && kw.optionalheader.None? && kw.region.None?
  {
    var p, e := ini["Processes"], ini["Email"];
    SplitJoin(p["include"], ',');
    SplitJoin(p["exclude"], ',');
    SplitJoin(e["to"], ',');
  }

  /** The listener `main` starts selects by the lists as split: they are never
      empty, so the constructor keeps them. An empty `Include` gives the
      one-element list holding the empty name, so with an empty `All` only
      the empty process name is selected; no subject carries a header. */
  lemma ConfiguredSelection(ini: Ini)
    requires ConfigKwargs(ini).Ok?
    ensures "Processes" in ini && "include" in ini["Processes"]
    ensures var kw := ConfigKwargs(ini).value;
            && KwargsConfig(kw).programs == kw.programs
            && KwargsConfig(kw).excluded == kw.excluded
            && KwargsConfig(kw).optionalheader.None?
            && (ini["Processes"]["include"] == "" ==> KwargsConfig(kw).programs == [""])
  {
    ConfigValues(ini);
  }

  /** What `main` does: the configuration is read before the environment is
      checked, so a missing key fails first; outside supervisord it returns;
      otherwise it starts the listener. */
  datatype Startup = ConfigFailure(error: ConfigError) | NotUnderSupervisor | Listen(kw: Kwargs)

  function Main(ini: Ini, underSupervisor: bool): Startup {
    match ConfigKwargs(ini)
    case Err(e) => ConfigFailure(e)
    case Ok(kw) => if underSupervisor then Listen(kw) else NotUnderSupervisor
  }

  /** A file that cannot be read, or holds no `Processes` section, fails with
      `NoSectionError` for `Processes` whatever the environment. */
  lemma MissingProcessesFails(ini: Ini, underSupervisor: bool)
    requires "Processes" !in ini
    ensures Main(ini, underSupervisor) == ConfigFailure(NoSectionError("Processes"))
  {
  }

  /** `main` starts a listener exactly when it runs under supervisord and the
      file holds every key; the listener then selects by the configured
      lists and the truthiness of `All`, with no subject header. */
  lemma MainOutcome(ini: Ini, underSupervisor: bool)
    ensures Main(ini, underSupervisor).ConfigFailure? <==> FirstMissing(ini, ConfigKeys).Some?
    ensures Main(ini, underSupervisor).Listen? <==> underSupervisor && FirstMissing(ini, ConfigKeys).None?
    ensures Main(ini, underSupervisor).Listen? ==>
              var p := ini["Processes"];
              KwargsConfig(Main(ini, underSupervisor).kw)
              == Decision.ListenerConfig(Split(p["include"], ','), Split(p["exclude"], ','), p["all"] != "", None)
  {
    ConfigErrors(ini);
    if ConfigKwargs(ini).Ok? {
      ConfigValues(ini);
      ConfiguredSelection(ini);
    }
  }
}
