/**
 * Start-up configuration in the build without Rust: compiled-in defaults, then the environment, then the
 * getopt loop. Options arrive as getopt decodes them, a letter and its argument ("" if it takes none).
 */
module Options {
  import opened Text
  import opened Buffers

  /** The configuration as values. */
  datatype Settings = Settings(modes: Modes, names: Names)

  datatype Modes = Modes(
    api: bool, debug: bool, jsonLog: bool, p2p: bool, sip: bool, responsive: bool, syslog: bool, verbose: bool,
    webhook: bool, oauth2: bool)

  datatype Names = Names(
    dbFile: string, jsonLogFile: string, bootstrapNode: string, webhookUrl: string, clientId: string,
    clientSecret: string)

  const DEFAULT_MODES := Modes(false, false, false, false, true, false, false, false, false, false)

  const DEFAULT_NAMES := Names(
    "sentrypeer.db", "sentrypeer_json.log", "bootstrap.sentrypeer.org", "http://localhost:4000/api/events",
    "YOUR_CLIENT_ID", "YOUR_CLIENT_SECRET")

  /** The SENTRYPEER_... variables; those of which only the presence matters are booleans. */
  datatype Env = Env(
    dbFile: Option<string>, jsonLogFile: Option<string>, bootstrapNode: Option<string>, api: bool,
    clientId: Option<string>, clientSecret: Option<string>, webhookUrl: Option<string>, responsive: bool,
    sipDisable: bool, syslog: bool, jsonLog: bool, p2p: bool, verbose: bool, debug: bool)

  datatype Opt = Opt(flag: char, arg: string)

  /** `Started`: options accepted; `Usage`: unknown option; `Exited`: the process ends with that status. */
  datatype Outcome = Started | Usage | Exited(code: int)

  // ----- the reference: what each setting should be -----

  /** The last value that fits; longer ones are ignored. */
  function LastFitting(start: string, values: seq<string>, len: nat): string {
    if values == [] then start
    else if |values[|values| - 1]| <= len then values[|values| - 1]
    else LastFitting(start, values[..|values| - 1], len)
  }

  function Arguments(opts: seq<Opt>, flag: char): seq<string> {
    if opts == [] then []
    else Arguments(opts[..|opts| - 1], flag) + if opts[|opts| - 1].flag == flag then [opts[|opts| - 1].arg] else []
  }

  function Given(value: Option<string>): seq<string> {
    if value.Some? then [value.value] else []
  }

  predicate HasFlag(opts: seq<Opt>, flag: char) {
    exists o :: o in opts && o.flag == flag
  }

  /** From any defaults: every mode is an OR, every string the last fitting value, environment first. */
  function Expected(base: Settings, env: Env, opts: seq<Opt>): Settings {
    Settings(ExpectedModes(base.modes, env, opts), ExpectedNames(base.names, env, opts))
  }

  function ExpectedModes(base: Modes, env: Env, opts: seq<Opt>): Modes {
    Modes(
      base.api || env.api || HasFlag(opts, 'a'),
      base.debug || env.debug || HasFlag(opts, 'd'),
      base.jsonLog || env.jsonLog || env.jsonLogFile.Some? || HasFlag(opts, 'j') || HasFlag(opts, 'l'),
      base.p2p || env.p2p || HasFlag(opts, 'p'),
      base.sip && !(env.sipDisable || HasFlag(opts, 'R')),
      base.responsive || env.responsive || HasFlag(opts, 'r'),
      base.syslog || env.syslog || HasFlag(opts, 's'),
      base.verbose || env.verbose || HasFlag(opts, 'v'),
      base.webhook || env.webhookUrl.Some? || HasFlag(opts, 'w'),
      base.oauth2 || env.clientId.Some? || env.clientSecret.Some? || HasFlag(opts, 'i') || HasFlag(opts, 'c'))
  }

  function ExpectedNames(base: Names, env: Env, opts: seq<Opt>): Names {
    Names(
      LastFitting(base.dbFile, Given(env.dbFile) + Arguments(opts, 'f'), PATH_MAX),
      LastFitting(base.jsonLogFile, Given(env.jsonLogFile) + Arguments(opts, 'l'), PATH_MAX),
      LastFitting(base.bootstrapNode, Given(env.bootstrapNode) + Arguments(opts, 'b'), DNS_MAX_LENGTH),
      LastFitting(base.webhookUrl, Given(env.webhookUrl) + Arguments(opts, 'w'), DNS_MAX_LENGTH),
      LastFitting(base.clientId, Given(env.clientId) + Arguments(opts, 'i'), DNS_MAX_LENGTH),
      LastFitting(base.clientSecret, Given(env.clientSecret) + Arguments(opts, 'c'), DNS_MAX_LENGTH))
  }

  /** An option that start-up survives. */
  predicate Survives(o: Opt, haveDht: bool) {
    if o.flag == 'f' || o.flag == 'l' then IsAbsolute(o.arg)
    else if o.flag == 'p' then haveDht
    else o.flag in {'v', 'b', 'c', 'i', 'j', 'w', 'd', 'r', 'R', 'a', 's'}
  }

  /** What the first option that is not survived does. */
  function Stops(o: Opt): Outcome {
    if o.flag == 'h' || o.flag == 'V' then Exited(0)
    else if o.flag == 'f' || o.flag == 'l' || o.flag == 'p' then Exited(1)
    else Usage
  }

  function ExpectedOutcome(opts: seq<Opt>, haveDht: bool): Outcome {
    if opts == [] then Started
    else if Survives(opts[0], haveDht) then ExpectedOutcome(opts[1..], haveDht)
    else Stops(opts[0])
  }

  // ----- the program -----

  predicate CleanEnv(env: Env) {
    && (env.dbFile.Some? ==> NoNul(env.dbFile.value)) && (env.jsonLogFile.Some? ==> NoNul(env.jsonLogFile.value))
    && (env.bootstrapNode.Some? ==> NoNul(env.bootstrapNode.value)) && (env.clientId.Some? ==> NoNul(env.clientId.value))
    && (env.clientSecret.Some? ==> NoNul(env.clientSecret.value)) && (env.webhookUrl.Some? ==> NoNul(env.webhookUrl.value))
  }

  predicate CleanOpts(opts: seq<Opt>) {
    forall i :: 0 <= i < |opts| ==> NoNul(opts[i].arg)
  }

  /** strncpy of a value that fits, nothing for one that does not. */
  function Set(current: string, value: string, len: nat): string {
    if |value| <= len then value else current
  }

  function SetIf(current: string, value: Option<string>, len: nat): string {
    if value.Some? then Set(current, value.value, len) else current
  }

  function ModesAfterEnv(m: Modes, env: Env): Modes {
    Modes(
      m.api || env.api, m.debug || env.debug, m.jsonLog || env.jsonLogFile.Some? || env.jsonLog, m.p2p || env.p2p,
      m.sip && !env.sipDisable, m.responsive || env.responsive, m.syslog || env.syslog, m.verbose || env.verbose,
      m.webhook || env.webhookUrl.Some?, m.oauth2 || env.clientId.Some? || env.clientSecret.Some?)
  }

  function NamesAfterEnv(n: Names, env: Env): Names {
    Names(
      SetIf(n.dbFile, env.dbFile, PATH_MAX), SetIf(n.jsonLogFile, env.jsonLogFile, PATH_MAX),
      SetIf(n.bootstrapNode, env.bootstrapNode, DNS_MAX_LENGTH), SetIf(n.webhookUrl, env.webhookUrl, DNS_MAX_LENGTH),
      SetIf(n.clientId, env.clientId, DNS_MAX_LENGTH), SetIf(n.clientSecret, env.clientSecret, DNS_MAX_LENGTH))
  }

  function ModesAfterOpt(m: Modes, o: Opt): Modes {
    Modes(
      m.api || o.flag == 'a', m.debug || o.flag == 'd', m.jsonLog || o.flag == 'j' || o.flag == 'l',
      m.p2p || o.flag == 'p', m.sip && o.flag != 'R', m.responsive || o.flag == 'r', m.syslog || o.flag == 's',
      m.verbose || o.flag == 'v', m.webhook || o.flag == 'w', m.oauth2 || o.flag == 'i' || o.flag == 'c')
  }

  function NamesAfterOpt(n: Names, o: Opt): Names {
    Names(
      if o.flag == 'f' then Set(n.dbFile, o.arg, PATH_MAX) else n.dbFile,
      if o.flag == 'l' then Set(n.jsonLogFile, o.arg, PATH_MAX) else n.jsonLogFile,
      if o.flag == 'b' then Set(n.bootstrapNode, o.arg, DNS_MAX_LENGTH) else n.bootstrapNode,
      if o.flag == 'w' then Set(n.webhookUrl, o.arg, DNS_MAX_LENGTH) else n.webhookUrl,
      if o.flag == 'i' then Set(n.clientId, o.arg, DNS_MAX_LENGTH) else n.clientId,
      if o.flag == 'c' then Set(n.clientSecret, o.arg, DNS_MAX_LENGTH) else n.clientSecret)
  }

  function AfterEnv(s: Settings, env: Env): Settings {
    Settings(ModesAfterEnv(s.modes, env), NamesAfterEnv(s.names, env))
  }

  function AfterOpt(s: Settings, o: Opt): Settings {
    Settings(ModesAfterOpt(s.modes, o), NamesAfterOpt(s.names, o))
  }

  function AfterOpts(s: Settings, opts: seq<Opt>): Settings {
    if opts == [] then s else AfterOpt(AfterOpts(s, opts[..|opts| - 1]), opts[|opts| - 1])
  }

  lemma DefaultsAreClean()
    ensures var d := DEFAULT_NAMES;
            && NoNul(d.dbFile) && NoNul(d.jsonLogFile) && NoNul(d.bootstrapNode)
            && NoNul(d.webhookUrl) && NoNul(d.clientId) && NoNul(d.clientSecret)
  {
  }

  /** A zeroed buffer with a first value. */
  method NewBuffer(text: string, len: nat) returns (buffer: array<char>)
    requires NoNul(text) && |text| <= len
    ensures fresh(buffer) && IsBuffer(buffer[..], len) && Str(buffer[..]) == text
  {
    buffer := new char[len + 1](_ => NUL);
    var _ := UtilCopyString(buffer, text, len);
  }

  class SentryPeerConfig {
    var apiMode: bool
    var debugMode: bool
    var jsonLogMode: bool
    var p2pDhtMode: bool
    var sipMode: bool
    var sipResponsiveMode: bool
    var syslogMode: bool
    var verboseMode: bool
    var webhookMode: bool
    var oauth2Mode: bool
    const dbFile: array<char>
    const jsonLogFile: array<char>
    const p2pBootstrapNode: array<char>
    const webhookUrl: array<char>
    const oauth2ClientId: array<char>
    const oauth2ClientSecret: array<char>

    /** `sentrypeer_config_new` */
    constructor ()
      ensures Valid() && View() == Settings(DEFAULT_MODES, DEFAULT_NAMES)
      ensures sipMode && !apiMode && !debugMode && !jsonLogMode && !p2pDhtMode && !sipResponsiveMode && !syslogMode
              && !verboseMode && !webhookMode && !oauth2Mode
      ensures Str(dbFile[..]) == "sentrypeer.db" && Str(jsonLogFile[..]) == "sentrypeer_json.log"
      ensures Str(p2pBootstrapNode[..]) == "bootstrap.sentrypeer.org"
      ensures Str(webhookUrl[..]) == "http://localhost:4000/api/events"
      ensures Str(oauth2ClientId[..]) == "YOUR_CLIENT_ID" && Str(oauth2ClientSecret[..]) == "YOUR_CLIENT_SECRET"
    {
      apiMode, debugMode, jsonLogMode, p2pDhtMode, sipMode := false, false, false, false, true;
      sipResponsiveMode, syslogMode, verboseMode, webhookMode, oauth2Mode := false, false, false, false, false;
      DefaultsAreClean();
      var db := NewBuffer(DEFAULT_NAMES.dbFile, PATH_MAX);
      var jsonLog := NewBuffer(DEFAULT_NAMES.jsonLogFile, PATH_MAX);
      var node := NewBuffer(DEFAULT_NAMES.bootstrapNode, DNS_MAX_LENGTH);
      var url := NewBuffer(DEFAULT_NAMES.webhookUrl, DNS_MAX_LENGTH);
      var id := NewBuffer(DEFAULT_NAMES.clientId, DNS_MAX_LENGTH);
      var secret := NewBuffer(DEFAULT_NAMES.clientSecret, DNS_MAX_LENGTH);
      dbFile, jsonLogFile, p2pBootstrapNode := db, jsonLog, node;
      webhookUrl, oauth2ClientId, oauth2ClientSecret := url, id, secret;
    }

    ghost predicate Valid()
      reads this, dbFile, jsonLogFile, p2pBootstrapNode, webhookUrl, oauth2ClientId, oauth2ClientSecret
    {
      && IsBuffer(dbFile[..], PATH_MAX) && IsBuffer(jsonLogFile[..], PATH_MAX)
      && IsBuffer(p2pBootstrapNode[..], DNS_MAX_LENGTH) && IsBuffer(webhookUrl[..], DNS_MAX_LENGTH)
      && IsBuffer(oauth2ClientId[..], DNS_MAX_LENGTH) && IsBuffer(oauth2ClientSecret[..], DNS_MAX_LENGTH)
      && dbFile != jsonLogFile
      && p2pBootstrapNode != webhookUrl && p2pBootstrapNode != oauth2ClientId && p2pBootstrapNode != oauth2ClientSecret
      && webhookUrl != oauth2ClientId && webhookUrl != oauth2ClientSecret && oauth2ClientId != oauth2ClientSecret
    }

    function ModeView(): Modes
      reads this
    {
      Modes(apiMode, debugMode, jsonLogMode, p2pDhtMode, sipMode, sipResponsiveMode, syslogMode, verboseMode,
            webhookMode, oauth2Mode)
    }

    function NameView(): Names
      reads this, dbFile, jsonLogFile, p2pBootstrapNode, webhookUrl, oauth2ClientId, oauth2ClientSecret
    {
      Names(Str(dbFile[..]), Str(jsonLogFile[..]), Str(p2pBootstrapNode[..]), Str(webhookUrl[..]),
            Str(oauth2ClientId[..]), Str(oauth2ClientSecret[..]))
    }

    function View(): Settings
      reads this, dbFile, jsonLogFile, p2pBootstrapNode, webhookUrl, oauth2ClientId, oauth2ClientSecret
    {
      Settings(ModeView(), NameView())
    }

    /** getenv and copy, for one string variable. */
    method CopyEnv(buffer: array<char>, value: Option<string>, len: nat)
      requires IsBuffer(buffer[..], len) && (value.Some? ==> NoNul(value.value))
      modifies buffer
      ensures IsBuffer(buffer[..], len) && Str(buffer[..]) == SetIf(Str(old(buffer[..])), value, len)
    {
      if value.Some? {
        var _ := UtilCopyString(buffer, value.value, len);
      }
    }

    method ProcessEnvNames(env: Env)
      requires Valid() && CleanEnv(env)
      modifies dbFile, jsonLogFile, p2pBootstrapNode, webhookUrl, oauth2ClientId, oauth2ClientSecret
      ensures Valid() && NameView() == NamesAfterEnv(old(NameView()), env)
    {
      CopyEnv(dbFile, env.dbFile, PATH_MAX);
      CopyEnv(jsonLogFile, env.jsonLogFile, PATH_MAX);
      CopyEnv(p2pBootstrapNode, env.bootstrapNode, DNS_MAX_LENGTH);
      CopyEnv(oauth2ClientId, env.clientId, DNS_MAX_LENGTH);
      CopyEnv(oauth2ClientSecret, env.clientSecret, DNS_MAX_LENGTH);
      CopyEnv(webhookUrl, env.webhookUrl, DNS_MAX_LENGTH);
    }

    /** The modes that go with a string variable. */
    method ProcessEnvImplied(env: Env)
      modifies `jsonLogMode, `webhookMode, `oauth2Mode
      ensures jsonLogMode == (old(jsonLogMode) || env.jsonLogFile.Some? || env.jsonLog)
      ensures webhookMode == (old(webhookMode) || env.webhookUrl.Some?)
      ensures oauth2Mode == (old(oauth2Mode) || env.clientId.Some? || env.clientSecret.Some?)
    {
      if env.jsonLogFile.Some? { jsonLogMode := true; }
      if env.clientId.Some? { oauth2Mode := true; }
      if env.clientSecret.Some? { oauth2Mode := true; }
      if env.webhookUrl.Some? { webhookMode := true; }
      if env.jsonLog { jsonLogMode := true; }
    }

    /** The modes with a variable of their own. */
    method ProcessEnvSwitches(env: Env)
      modifies `apiMode, `p2pDhtMode, `sipMode, `sipResponsiveMode
      ensures apiMode == (old(apiMode) || env.api) && p2pDhtMode == (old(p2pDhtMode) || env.p2p)
      ensures sipMode == (old(sipMode) && !env.sipDisable)
      ensures sipResponsiveMode == (old(sipResponsiveMode) || env.responsive)
    {
      if env.api { apiMode := true; }
      if env.responsive { sipResponsiveMode := true; }
      if env.sipDisable { sipMode := false; }
      if env.p2p { p2pDhtMode := true; }
    }

    /** The modes that decide what is printed. */
    method ProcessEnvOutput(env: Env)
      modifies `syslogMode, `verboseMode, `debugMode
      ensures syslogMode == (old(syslogMode) || env.syslog) && verboseMode == (old(verboseMode) || env.verbose)
      ensures debugMode == (old(debugMode) || env.debug)
    {
      if env.syslog { syslogMode := true; }
      if env.verbose { verboseMode := true; }
      if env.debug { debugMode := true; }
    }

    method ProcessEnvModes(env: Env)
      modifies this
      ensures ModeView() == ModesAfterEnv(old(ModeView()), env)
    {
      ProcessEnvImplied(env);
      ProcessEnvSwitches(env);
      ProcessEnvOutput(env);
    }

    method ProcessEnvVars(env: Env)
      requires Valid() && CleanEnv(env)
      modifies this, dbFile, jsonLogFile, p2pBootstrapNode, webhookUrl, oauth2ClientId, oauth2ClientSecret
      ensures Valid() && View() == AfterEnv(old(View()), env)
    {
      ProcessEnvNames(env);
      ProcessEnvModes(env);
    }

    /** The copies of an option: -f and -l only take an absolute path. */
    method ApplyName(o: Opt) returns (ok: bool)
      requires Valid() && NoNul(o.arg)
      modifies dbFile, jsonLogFile, p2pBootstrapNode, webhookUrl, oauth2ClientId, oauth2ClientSecret
      ensures Valid() && ok == (o.flag == 'f' || o.flag == 'l' ==> IsAbsolute(o.arg))
      ensures NameView() == if ok then NamesAfterOpt(old(NameView()), o) else old(NameView())
    {
      ok := true;
      match o.flag {
        case 'f' =>
          if !IsAbsolute(o.arg) { return false; }
          var _ := UtilCopyString(dbFile, o.arg, PATH_MAX);
        case 'l' =>
          if !IsAbsolute(o.arg) { return false; }
          var _ := UtilCopyString(jsonLogFile, o.arg, PATH_MAX);
        case 'b' => var _ := UtilCopyString(p2pBootstrapNode, o.arg, DNS_MAX_LENGTH);
        case 'w' => var _ := UtilCopyString(webhookUrl, o.arg, DNS_MAX_LENGTH);
        case 'i' => var _ := UtilCopyString(oauth2ClientId, o.arg, DNS_MAX_LENGTH);
        case 'c' => var _ := UtilCopyString(oauth2ClientSecret, o.arg, DNS_MAX_LENGTH);
        case _ =>
      }
    }

    /** The mode an option sets, if any. */
    method ApplyMode(o: Opt)
      modifies this
      ensures ModeView() == ModesAfterOpt(old(ModeView()), o)
    {
      match o.flag {
        case 'l' => jsonLogMode := true;
        case 'a' => apiMode := true;
        case 'c' => oauth2Mode := true;
        case 'd' => debugMode := true;
        case 'r' => sipResponsiveMode := true;
        case 'R' => sipMode := false;
        case 'i' => oauth2Mode := true;
        case 'j' => jsonLogMode := true;
        case 'p' => p2pDhtMode := true;
        case 's' => syslogMode := true;
        case 'v' => verboseMode := true;
        case 'w' => webhookMode := true;
        case _ =>
      }
    }

    /** One round of the getopt loop. */
    method ApplyOption(o: Opt, haveDht: bool) returns (outcome: Outcome)
      requires Valid() && NoNul(o.arg)
      modifies this, dbFile, jsonLogFile, p2pBootstrapNode, webhookUrl, oauth2ClientId, oauth2ClientSecret
      ensures Valid() && outcome == (if Survives(o, haveDht) then Started else Stops(o))
      ensures outcome == Exited(0) <==> o.flag == 'h' || o.flag == 'V'
      ensures outcome == Exited(1) <==>
              ((o.flag == 'f' || o.flag == 'l') && (o.arg == "" || o.arg[0] != '/')) || (o.flag == 'p' && !haveDht)
      ensures outcome == Usage <==>
              o.flag !in {'h', 'V', 'f', 'l', 'b', 'j', 'p', 'w', 'i', 'c', 'a', 'r', 'R', 's', 'v', 'd'}
      ensures View() == if outcome.Started? then AfterOpt(old(View()), o) else old(View())
    {
      if o.flag == 'h' || o.flag == 'V' {
        return Exited(0);
      }
      if o.flag == 'p' && !haveDht {
        return Exited(1);
      }
      if o.flag !in {'v', 'f', 'l', 'b', 'c', 'i', 'w', 'j', 'p', 'd', 'r', 'R', 'a', 's'} {
        return Usage;
      }
      var ok := ApplyName(o);
      if !ok {
        return Exited(1);
      }
      ApplyMode(o);
      return Started;
    }

    /** The getopt loop. */
    method ApplyOptions(opts: seq<Opt>, haveDht: bool) returns (outcome: Outcome)
      requires Valid() && CleanOpts(opts)
      modifies this, dbFile, jsonLogFile, p2pBootstrapNode, webhookUrl, oauth2ClientId, oauth2ClientSecret
      ensures Valid() && outcome == ExpectedOutcome(opts, haveDht)
      ensures outcome.Started? ==> View() == AfterOpts(old(View()), opts)
    {
      ghost var base := View();
      var k := 0;
      while k < |opts|
        invariant k <= |opts| && Valid() && View() == AfterOpts(base, opts[..k])
        invariant ExpectedOutcome(opts[k..], haveDht) == ExpectedOutcome(opts, haveDht)
      {
        OptionStep(base, opts, k, haveDht);
        outcome := ApplyOption(opts[k], haveDht);
        if outcome != Started {
          return;
        }
        k := k + 1;
      }
      assert opts[..k] == opts;
      return Started;
    }

    /** `process_cli`: the environment first, then the arguments one by one. */
    method ProcessCli(env: Env, opts: seq<Opt>, haveDht: bool) returns (outcome: Outcome)
      requires Valid() && CleanEnv(env) && CleanOpts(opts)
      modifies this, dbFile, jsonLogFile, p2pBootstrapNode, webhookUrl, oauth2ClientId, oauth2ClientSecret
      ensures Valid() && outcome == ExpectedOutcome(opts, haveDht)
      ensures outcome.Started? ==> View() == Expected(old(View()), env, opts)
      // Modes: switched by their own variable, by the string that goes with them, or by an option.
      ensures outcome.Started? ==>
                && (apiMode <==> old(apiMode) || env.api || HasFlag(opts, 'a'))
                && (debugMode <==> old(debugMode) || env.debug || HasFlag(opts, 'd'))
                && (jsonLogMode <==>
                      old(jsonLogMode) || env.jsonLog || env.jsonLogFile.Some? || HasFlag(opts, 'j') || HasFlag(opts, 'l'))
                && (p2pDhtMode <==> old(p2pDhtMode) || env.p2p || HasFlag(opts, 'p'))
                && (sipMode <==> old(sipMode) && !env.sipDisable && !HasFlag(opts, 'R'))
                && (sipResponsiveMode <==> old(sipResponsiveMode) || env.responsive || HasFlag(opts, 'r'))
                && (syslogMode <==> old(syslogMode) || env.syslog || HasFlag(opts, 's'))
                && (verboseMode <==> old(verboseMode) || env.verbose || HasFlag(opts, 'v'))
                && (webhookMode <==> old(webhookMode) || env.webhookUrl.Some? || HasFlag(opts, 'w'))
                && (oauth2Mode <==>
                      old(oauth2Mode) || env.clientId.Some? || env.clientSecret.Some? ||
                      HasFlag(opts, 'i') || HasFlag(opts, 'c'))
      // Strings: the last fitting argument, else a fitting variable, else the old value.
      ensures outcome.Started? ==>
                && IsSettled(Str(dbFile[..]), Str(old(dbFile[..])), env.dbFile, opts, 'f', 4096)
                && IsSettled(Str(jsonLogFile[..]), Str(old(jsonLogFile[..])), env.jsonLogFile, opts, 'l', 4096)
                && IsSettled(Str(p2pBootstrapNode[..]), Str(old(p2pBootstrapNode[..])), env.bootstrapNode, opts, 'b', 256)
                && IsSettled(Str(webhookUrl[..]), Str(old(webhookUrl[..])), env.webhookUrl, opts, 'w', 256)
                && IsSettled(Str(oauth2ClientId[..]), Str(old(oauth2ClientId[..])), env.clientId, opts, 'i', 256)
                && IsSettled(Str(oauth2ClientSecret[..]), Str(old(oauth2ClientSecret[..])), env.clientSecret, opts, 'c', 256)
    {
      ghost var names := NameView();
      FoldIsExpected(View(), env, opts);
      NamesSettled(names, env, opts);
      ProcessEnvVars(env);
      outcome := ApplyOptions(opts, haveDht);
    }
  }

  lemma OptionStep(s: Settings, opts: seq<Opt>, k: nat, haveDht: bool)
    requires k < |opts|
    ensures AfterOpts(s, opts[..k + 1]) == AfterOpt(AfterOpts(s, opts[..k]), opts[k])
    ensures ExpectedOutcome(opts[k..], haveDht) ==
            if Survives(opts[k], haveDht) then ExpectedOutcome(opts[k + 1..], haveDht) else Stops(opts[k])
  {
    assert opts[..k + 1][..k] == opts[..k] && opts[k..][1..] == opts[k + 1..];
  }

  // ----- folding option by option gives the reference -----

  lemma {:induction false} LastFittingAppend(start: string, a: seq<string>, b: seq<string>, len: nat)
    ensures LastFitting(start, a + b, len) == LastFitting(LastFitting(start, a, len), b, len)
  {
    if b == [] {
      assert a + b == a;
    } else {
      LastFittingAppend(start, a, b[..|b| - 1], len);
      assert (a + b)[..|a + b| - 1] == a + b[..|b| - 1];
    }
  }

  lemma ArgumentStep(start: string, given: seq<string>, opts: seq<Opt>, flag: char, len: nat)
    requires opts != []
    ensures var o := opts[|opts| - 1];
            var before := LastFitting(start, given + Arguments(opts[..|opts| - 1], flag), len);
            LastFitting(start, given + Arguments(opts, flag), len) ==
            if o.flag == flag then Set(before, o.arg, len) else before
  {
    var o := opts[|opts| - 1];
    var a := Arguments(opts[..|opts| - 1], flag);
    if o.flag == flag {
      assert given + Arguments(opts, flag) == (given + a) + [o.arg];
      LastFittingAppend(start, given + a, [o.arg], len);
      assert [o.arg][..0] == [];
    } else {
      assert Arguments(opts, flag) == a;
    }
  }

  lemma FlagStep(opts: seq<Opt>, flag: char)
    requires opts != []
    ensures HasFlag(opts, flag) <==> HasFlag(opts[..|opts| - 1], flag) || opts[|opts| - 1].flag == flag
  {
    assert forall o :: o in opts <==> o in opts[..|opts| - 1] || o == opts[|opts| - 1];
  }

  lemma GivenFits(start: string, value: Option<string>, len: nat)
    ensures LastFitting(start, Given(value) + [], len) == SetIf(start, value, len)
  {
    assert Given(value) + [] == Given(value);
    if value.Some? {
      assert [value.value][..0] == [];
    }
  }

  /** Each mode is the OR, each string the last fitting value, whatever the order of the flags. */
  lemma {:induction false} FoldIsExpected(base: Settings, env: Env, opts: seq<Opt>)
    ensures AfterOpts(AfterEnv(base, env), opts) == Expected(base, env, opts)
  {
    if opts == [] {
      NothingGiven(base.names, env);
    } else {
      FoldIsExpected(base, env, opts[..|opts| - 1]);
      ExpectedModesStep(base.modes, env, opts);
      ExpectedNamesStep(base.names, env, opts);
    }
  }

  lemma NothingGiven(base: Names, env: Env)
    ensures NamesAfterEnv(base, env) == ExpectedNames(base, env, [])
  {
    GivenFits(base.dbFile, env.dbFile, PATH_MAX);
    GivenFits(base.jsonLogFile, env.jsonLogFile, PATH_MAX);
    GivenFits(base.bootstrapNode, env.bootstrapNode, DNS_MAX_LENGTH);
    GivenFits(base.webhookUrl, env.webhookUrl, DNS_MAX_LENGTH);
    GivenFits(base.clientId, env.clientId, DNS_MAX_LENGTH);
    GivenFits(base.clientSecret, env.clientSecret, DNS_MAX_LENGTH);
  }

  lemma ExpectedModesStep(base: Modes, env: Env, opts: seq<Opt>)
    requires opts != []
    ensures ExpectedModes(base, env, opts) ==
            ModesAfterOpt(ExpectedModes(base, env, opts[..|opts| - 1]), opts[|opts| - 1])
  {
    FlagStep(opts, 'a');
    FlagStep(opts, 'd');
    FlagStep(opts, 'j');
    FlagStep(opts, 'l');
    FlagStep(opts, 'p');
    FlagStep(opts, 'R');
    FlagStep(opts, 'r');
    FlagStep(opts, 's');
    FlagStep(opts, 'v');
    FlagStep(opts, 'w');
    FlagStep(opts, 'i');
    FlagStep(opts, 'c');
  }

  lemma ExpectedNamesStep(base: Names, env: Env, opts: seq<Opt>)
    requires opts != []
    ensures ExpectedNames(base, env, opts) ==
            NamesAfterOpt(ExpectedNames(base, env, opts[..|opts| - 1]), opts[|opts| - 1])
  {
    ArgumentStep(base.dbFile, Given(env.dbFile), opts, 'f', PATH_MAX);
    ArgumentStep(base.jsonLogFile, Given(env.jsonLogFile), opts, 'l', PATH_MAX);
    ArgumentStep(base.bootstrapNode, Given(env.bootstrapNode), opts, 'b', DNS_MAX_LENGTH);
    ArgumentStep(base.webhookUrl, Given(env.webhookUrl), opts, 'w', DNS_MAX_LENGTH);
    ArgumentStep(base.clientId, Given(env.clientId), opts, 'i', DNS_MAX_LENGTH);
    ArgumentStep(base.clientSecret, Given(env.clientSecret), opts, 'c', DNS_MAX_LENGTH);
  }

  // ----- the reference, spelled out -----

  /** Argument k is one of this letter and fits. */
  predicate SetsString(opts: seq<Opt>, flag: char, len: nat, k: nat) {
    k < |opts| && opts[k].flag == flag && |opts[k].arg| <= len
  }

  /** The last fitting argument of the letter; without one the variable if that fits, else the first value. */
  ghost predicate IsSettled(text: string, start: string, given: Option<string>, opts: seq<Opt>, flag: char, len: nat) {
    && (forall k: nat :: SetsString(opts, flag, len, k) && (forall j: nat :: SetsString(opts, flag, len, j) ==> j <= k) ==>
          text == opts[k].arg)
    && ((forall k: nat :: !SetsString(opts, flag, len, k)) ==>
          text == if given.Some? && |given.value| <= len then given.value else start)
  }

  lemma {:induction false} LastFittingSettles(start: string, given: Option<string>, opts: seq<Opt>, flag: char, len: nat)
    ensures IsSettled(LastFitting(start, Given(given) + Arguments(opts, flag), len), start, given, opts, flag, len)
  {
    if opts == [] {
      GivenFits(start, given, len);
    } else {
      LastFittingSettles(start, given, opts[..|opts| - 1], flag, len);
      ArgumentStep(start, Given(given), opts, flag, len);
      SettledStep(
        LastFitting(start, Given(given) + Arguments(opts[..|opts| - 1], flag), len), start, given, opts, flag, len);
    }
  }

  lemma SettledStep(text: string, start: string, given: Option<string>, opts: seq<Opt>, flag: char, len: nat)
    requires opts != [] && IsSettled(text, start, given, opts[..|opts| - 1], flag, len)
    ensures var o := opts[|opts| - 1];
            IsSettled(if o.flag == flag then Set(text, o.arg, len) else text, start, given, opts, flag, len)
  {
    var before, last: nat := opts[..|opts| - 1], |opts| - 1;
    assert forall k: nat :: SetsString(before, flag, len, k) <==> SetsString(opts, flag, len, k) && k != last;
    if SetsString(opts, flag, len, last) {
      assert forall j: nat :: SetsString(opts, flag, len, j) ==> j <= last;
    } else {
      assert forall k: nat :: SetsString(before, flag, len, k) <==> SetsString(opts, flag, len, k);
    }
  }

  lemma NamesSettled(base: Names, env: Env, opts: seq<Opt>)
    ensures var n := ExpectedNames(base, env, opts);
            && IsSettled(n.dbFile, base.dbFile, env.dbFile, opts, 'f', 4096)
            && IsSettled(n.jsonLogFile, base.jsonLogFile, env.jsonLogFile, opts, 'l', 4096)
            && IsSettled(n.bootstrapNode, base.bootstrapNode, env.bootstrapNode, opts, 'b', 256)
            && IsSettled(n.webhookUrl, base.webhookUrl, env.webhookUrl, opts, 'w', 256)
            && IsSettled(n.clientId, base.clientId, env.clientId, opts, 'i', 256)
            && IsSettled(n.clientSecret, base.clientSecret, env.clientSecret, opts, 'c', 256)
  {
    LastFittingSettles(base.dbFile, env.dbFile, opts, 'f', 4096);
    LastFittingSettles(base.jsonLogFile, env.jsonLogFile, opts, 'l', 4096);
    LastFittingSettles(base.bootstrapNode, env.bootstrapNode, opts, 'b', 256);
    LastFittingSettles(base.webhookUrl, env.webhookUrl, opts, 'w', 256);
    LastFittingSettles(base.clientId, env.clientId, opts, 'i', 256);
    LastFittingSettles(base.clientSecret, env.clientSecret, opts, 'c', 256);
  }

  /** The end of start-up is decided by the first option that is not survived. */
  lemma {:induction false} FirstStopDecides(opts: seq<Opt>, k: nat, haveDht: bool)
    requires k < |opts| && (forall j :: 0 <= j < k ==> Survives(opts[j], haveDht)) && !Survives(opts[k], haveDht)
    ensures ExpectedOutcome(opts, haveDht) == Stops(opts[k])
  {
    if k > 0 {
      FirstStopDecides(opts[1..], k - 1, haveDht);
    }
  }

  /** Start-up succeeds exactly if it survives every single option. */
  lemma {:induction false} StartedExactly(opts: seq<Opt>, haveDht: bool)
    ensures ExpectedOutcome(opts, haveDht).Started? <==> forall o :: o in opts ==> Survives(o, haveDht)
  {
    if opts != [] {
      StartedExactly(opts[1..], haveDht);
      assert forall o :: o in opts <==> o == opts[0] || o in opts[1..];
    }
  }

  /** The modes depend on which options are given, not on their order or number. */
  lemma ModesIgnoreOrder(base: Settings, env: Env, xs: seq<Opt>, ys: seq<Opt>)
    requires forall o :: o in xs <==> o in ys
    ensures ExpectedModes(base.modes, env, xs) == ExpectedModes(base.modes, env, ys)
  {
    assert forall flag :: HasFlag(xs, flag) <==> HasFlag(ys, flag);
  }

  /** The order of options with other letters does not matter for a string: its own arguments decide. */
  lemma StringsDependOnOwnArguments(base: Settings, env: Env, xs: seq<Opt>, ys: seq<Opt>)
    requires forall flag :: Arguments(xs, flag) == Arguments(ys, flag)
    ensures Expected(base, env, xs) == Expected(base, env, ys)
  {
    forall flag: char
      ensures HasFlag(xs, flag) <==> HasFlag(ys, flag)
    {
      FlaggedHasArgument(xs, flag);
      FlaggedHasArgument(ys, flag);
    }
  }

  lemma {:induction false} FlaggedHasArgument(opts: seq<Opt>, flag: char)
    ensures HasFlag(opts, flag) <==> Arguments(opts, flag) != []
  {
    if opts != [] {
      FlaggedHasArgument(opts[..|opts| - 1], flag);
      FlagStep(opts, flag);
    }
  }
}
