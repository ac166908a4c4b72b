/** The start-up check of the mail settings read from the environment: every
    setting must be non-empty, and only then is the port converted to an integer.
    Either failure logs an error and ends the process with status 1. */
module Config {
  import opened PyValues
  import Seqs

  /** The settings in the order the check visits them. */
  const SettingNames: seq<string> := ["SMTP_SERVER", "SMTP_PORT", "EMAIL_ADDRESS", "EMAIL_PASSWORD", "ADMIN_EMAIL"]

  /** `os.getenv(name)` is falsy: the variable is unset or empty. */
  predicate Falsy(env: map<string, string>, name: string) {
    name !in env || env[name] == ""
  }

  function FalsyIn(env: map<string, string>): string -> bool {
    n => Falsy(env, n)
  }

  /** The names of the falsy settings, in the order of `SettingNames`. */
  function MissingSettings(env: map<string, string>): seq<string> {
    Seqs.Filter(SettingNames, FalsyIn(env))
  }

  /** A setting is reported missing exactly when it is falsy, and the
      reported names keep the order of `SettingNames`. */
  lemma MissingSettingsMembers(env: map<string, string>)
    ensures forall n :: n in MissingSettings(env) <==> n in SettingNames && Falsy(env, n)
    ensures Seqs.Subseq(MissingSettings(env), SettingNames)
  {
    Seqs.FilterMembers(SettingNames, FalsyIn(env));
  }

  datatype Settings = Settings(server: string, port: int, address: string, password: string, admin: string)

  /** Either the run goes ahead with the settings, or it aborts after logging `message`. */
  datatype Startup = Proceed(settings: Settings) | Abort(message: string)

  /** The whole check. `parseInt` stands for Python's `int()` on a string:
      `None` where `int()` raises ValueError. */
  function CheckSettings(env: map<string, string>, parseInt: string -> Option<int>): (c: Startup)
    ensures c.Abort? <==> MissingSettings(env) != [] || parseInt(env["SMTP_PORT"]).None?
    ensures MissingSettings(env) != [] ==>
      c == Abort("Missing SMTP environment variables: " + Seqs.Join(MissingSettings(env), ", ") + ".")
    ensures MissingSettings(env) == [] && parseInt(env["SMTP_PORT"]).None? ==>
      c == Abort("Invalid SMTP_PORT value: " + env["SMTP_PORT"])
    ensures c.Proceed? ==>
      && (forall n :: n in SettingNames ==> n in env && env[n] != "")
      && c.settings == Settings(env["SMTP_SERVER"], parseInt(env["SMTP_PORT"]).value,
                                env["EMAIL_ADDRESS"], env["EMAIL_PASSWORD"], env["ADMIN_EMAIL"])
  {
    var missing := MissingSettings(env);
    if missing != [] then
      Abort("Missing SMTP environment variables: " + Seqs.Join(missing, ", ") + ".")
    else
      MissingSettingsMembers(env);
      match parseInt(env["SMTP_PORT"])
      case None => Abort("Invalid SMTP_PORT value: " + env["SMTP_PORT"])
      case Some(port) =>
        Proceed(Settings(env["SMTP_SERVER"], port, env["EMAIL_ADDRESS"], env["EMAIL_PASSWORD"], env["ADMIN_EMAIL"]))
  }

  /** The missing list is the only list that names exactly the falsy settings in
      their fixed order. */
  lemma MissingSettingsExact(env: map<string, string>, names: seq<string>)
    requires forall n :: n in names <==> n in SettingNames && Falsy(env, n)
    requires Seqs.Subseq(names, SettingNames)
    ensures names == MissingSettings(env)
  {
    SettingNamesDistinct();
    Seqs.FilterExact(SettingNames, FalsyIn(env), names);
  }

  lemma SettingNamesDistinct()
    ensures Seqs.Distinct(SettingNames)
  {
    var s := SettingNames;
    assert |s[0]| == 11 && |s[1]| == 9 && |s[2]| == 13 && |s[3]| == 14 && |s[4]| == 11;
    assert s[0][0] == 'S' && s[4][0] == 'A';
  }
}
