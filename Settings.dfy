/**
 * The settings side of the monitor: the `ConfigHandler` dictionary with its
 * defaults and setters, the checks the two configuration windows make before
 * saving, the font-size zoom, and the translator's fallbacks. Reading and
 * writing config.json and the translation files is I/O and stays outside:
 * the decoded contents are parameters.
 */
module Settings {
  import opened Py

  const SupportedLanguages: seq<string> := ["en", "pt_br", "es", "fr", "de"]
  const DefaultAutoRefreshInterval := 30
  const DefaultTheme := "superhero"
  const DefaultFontSize := 12
  const DefaultPort := 22

  /** The themes the preferences window offers. */
  const ThemeOptions: seq<string> := [
    "superhero", "cyborg", "darkly", "flatly", "journal", "lumen",
    "minty", "pulse", "sandstone", "solar", "united", "yeti"]

  // ------------------------------------------------------------ the config dictionary

  type Config = map<string, Scalar>

  /** The four keys a usable configuration must hold. */
  const ConnectionKeys: seq<string> := ["host", "port", "username", "password"]

  predicate Configured(config: Config)
  {
    forall k :: 0 <= k < |ConnectionKeys| ==> ConnectionKeys[k] in config
  }

  /** `get_server_details`: host, port (22 when absent), username and password; None is SNull. */
  datatype ServerDetails = ServerDetails(host: Scalar, port: Scalar, username: Scalar, password: Scalar)

  function DetailsOf(config: Config): ServerDetails
  {
    ServerDetails(
      if "host" in config then config["host"] else SNull,
      if "port" in config then config["port"] else SInt(DefaultPort),
      if "username" in config then config["username"] else SNull,
      if "password" in config then config["password"] else SNull)
  }

  /** `get_preferences`, each entry falling back to its default. */
  datatype Preferences = Preferences(autoRefreshInterval: Scalar, theme: Scalar, fontSize: Scalar)

  function PreferencesOf(config: Config): Preferences
  {
    Preferences(
      if "auto_refresh_interval" in config then config["auto_refresh_interval"] else SInt(DefaultAutoRefreshInterval),
      if "theme" in config then config["theme"] else SStr(DefaultTheme),
      if "font_size" in config then config["font_size"] else SInt(DefaultFontSize))
  }

  /** The dictionary after `set_server_details`. */
  function WithServerDetails(config: Config, host: string, port: int, username: string, password: string): (c: Config)
    ensures Configured(c)
    ensures DetailsOf(c) == ServerDetails(SStr(host), SInt(port), SStr(username), SStr(password))
    ensures PreferencesOf(c) == PreferencesOf(config)
    ensures forall k :: k in config && k !in ConnectionKeys ==> k in c && c[k] == config[k]
  {
    config["host" := SStr(host)]["port" := SInt(port)]["username" := SStr(username)]["password" := SStr(password)]
  }

  /** The dictionary after `set_preferences`; the font size is left alone. */
  function WithPreferences(config: Config, interval: int, theme: string): (c: Config)
    ensures Configured(c) <==> Configured(config)
    ensures DetailsOf(c) == DetailsOf(config)
    ensures PreferencesOf(c) == Preferences(SInt(interval), SStr(theme), PreferencesOf(config).fontSize)
  {
    config["auto_refresh_interval" := SInt(interval)]["theme" := SStr(theme)]
  }

  /** The dictionary after a zoom step stores the new font size. */
  function WithFontSize(config: Config, size: int): (c: Config)
    ensures Configured(c) <==> Configured(config)
    ensures DetailsOf(c) == DetailsOf(config)
    ensures PreferencesOf(c) == PreferencesOf(config).(fontSize := SInt(size))
  {
    config["font_size" := SInt(size)]
  }

  class ConfigHandler {
    var config: Config

    /** `load_config`: the decoded file, or an empty dictionary when it is missing or does not parse. */
    constructor (loaded: Option<Config>)
      ensures config == if loaded.Some? then loaded.value else map[]
    {
      config := if loaded.Some? then loaded.value else map[];
    }

    predicate IsConfigured()
      reads this
    {
      Configured(config)
    }

    function GetServerDetails(): ServerDetails
      reads this
    {
      DetailsOf(config)
    }

    function GetPreferences(): Preferences
      reads this
    {
      PreferencesOf(config)
    }

    method SetServerDetails(host: string, port: int, username: string, password: string)
      modifies this
      ensures config == WithServerDetails(old(config), host, port, username, password)
      ensures IsConfigured()
      ensures GetServerDetails() == ServerDetails(SStr(host), SInt(port), SStr(username), SStr(password))
      ensures GetPreferences() == old(GetPreferences())
    {
      config := config["host" := SStr(host)];
      config := config["port" := SInt(port)];
      config := config["username" := SStr(username)];
      config := config["password" := SStr(password)];
    }

    method SetPreferences(interval: int, theme: string)
      modifies this
      ensures config == WithPreferences(old(config), interval, theme)
      ensures GetServerDetails() == old(GetServerDetails())
      ensures GetPreferences() == Preferences(SInt(interval), SStr(theme), old(GetPreferences()).fontSize)
    {
      config := config["auto_refresh_interval" := SInt(interval)];
      config := config["theme" := SStr(theme)];
    }

    /** `config_handler.config['font_size'] = ...`, written by the zoom handlers. */
    method SetFontSize(size: int)
      modifies this
      ensures config == WithFontSize(old(config), size)
    {
      config := config["font_size" := SInt(size)];
    }
  }

  // ------------------------------------------------------------ the configuration windows

  /**
   * What pressing Save did. `PortUnreadable` is the TclError `port_var.get()`
   * raises on text Tcl cannot read as a number: it is not caught, so nothing
   * is saved and no message is shown.
   */
  datatype SaveResult =
    | PortUnreadable
    | InvalidInput
    | InvalidTheme
    | Saved(host: string, port: int, username: string, password: string, interval: int, theme: string)

  /** Host, username and password are not blank and the port is in 1..65535. */
  predicate ServerFieldsValid(hostText: string, port: int, usernameText: string, passwordText: string)
  {
    Strip(hostText) != "" && Strip(usernameText) != "" && Strip(passwordText) != "" && 0 < port <= 65535
  }

  /**
   * `ConfigWindow.save_config`. `port` and `interval` are what the two
   * IntVars give back, None when `.get()` raises TclError. `IntVar.get`
   * reads a number with a fraction, such as "22.5", as its integer part.
   */
  function SaveConfig(hostText: string, port: Option<int>, usernameText: string, passwordText: string,
                      interval: Option<int>, theme: string): (r: SaveResult)
    ensures port.None? <==> r.PortUnreadable?
    ensures r.InvalidInput? <==>
      port.Some? && (!ServerFieldsValid(hostText, port.value, usernameText, passwordText) || interval.None? || interval.value < 0)
    ensures r.InvalidTheme? <==>
      port.Some? && ServerFieldsValid(hostText, port.value, usernameText, passwordText)
      && interval.Some? && interval.value >= 0 && theme !in ThemeOptions
    ensures r.Saved? ==>
      r == Saved(Strip(hostText), port.value, Strip(usernameText), Strip(passwordText), interval.value, theme)
  {
    if port.None? then PortUnreadable
    else
      var host, username, password := Strip(hostText), Strip(usernameText), Strip(passwordText);
      if host == "" || username == "" || password == "" then InvalidInput
      else if !(0 < port.value <= 65535) then InvalidInput
      else if interval.None? || interval.value < 0 then InvalidInput
      else if theme !in ThemeOptions then InvalidTheme
      else Saved(host, port.value, username, password, interval.value, theme)
  }

  /** `ConfigWindowInitial.save_and_connect`: the same server checks, then the default preferences. */
  function SaveAndConnect(hostText: string, port: Option<int>, usernameText: string, passwordText: string): (r: SaveResult)
    ensures !r.InvalidTheme?
    ensures r.Saved? <==> port.Some? && ServerFieldsValid(hostText, port.value, usernameText, passwordText)
    ensures r.Saved? ==> r.interval == DefaultAutoRefreshInterval && r.theme == DefaultTheme
  {
    if port.None? then PortUnreadable
    else
      var host, username, password := Strip(hostText), Strip(usernameText), Strip(passwordText);
      if host == "" || username == "" || password == "" then InvalidInput
      else if !(0 < port.value <= 65535) then InvalidInput
      else Saved(host, port.value, username, password, DefaultAutoRefreshInterval, DefaultTheme)
  }

  /** Not blank, and neither starting nor ending with white space. */
  predicate Trimmed(t: string)
  {
    t != "" && !IsSpace(t[0]) && !IsSpace(t[|t| - 1])
  }

  /** What a saved configuration satisfies: trimmed non-blank credentials, a port in range, a known theme. */
  predicate SavedValid(r: SaveResult)
    requires r.Saved?
  {
    && Trimmed(r.host) && Trimmed(r.username) && Trimmed(r.password)
    && 0 < r.port <= 65535 && r.interval >= 0 && r.theme in ThemeOptions
  }

  lemma SaveConfigValid(hostText: string, port: Option<int>, usernameText: string, passwordText: string,
                        interval: Option<int>, theme: string)
    ensures var r := SaveConfig(hostText, port, usernameText, passwordText, interval, theme);
      r.Saved? ==> SavedValid(r)
  {
    StripTrimmed(hostText);
    StripTrimmed(usernameText);
    StripTrimmed(passwordText);
  }

  lemma SaveAndConnectValid(hostText: string, port: Option<int>, usernameText: string, passwordText: string)
    ensures var r := SaveAndConnect(hostText, port, usernameText, passwordText);
      r.Saved? ==> SavedValid(r)
  {
    StripTrimmed(hostText);
    StripTrimmed(usernameText);
    StripTrimmed(passwordText);
  }

  /** Both windows accept the same server fields; the first-run window only skips the preference checks. */
  lemma InitialWindowAgrees(hostText: string, port: Option<int>, usernameText: string, passwordText: string)
    ensures var r := SaveConfig(hostText, port, usernameText, passwordText, Some(DefaultAutoRefreshInterval), DefaultTheme);
      r == SaveAndConnect(hostText, port, usernameText, passwordText)
  {
  }

  /** The text `strip()` returns neither starts nor ends with white space. */
  lemma StripTrimmed(s: string)
    ensures Strip(s) != "" ==> Trimmed(Strip(s))
  {
    var l := StripLeft(s);
    var r := StripRight(l);
    if r != "" {
      assert r[0] == l[0];
    }
  }

  /**
   * Pressing Save in the preferences window: the outcome of the checks and,
   * when they pass, `set_server_details` followed by `set_preferences`.
   */
  method SaveConfigWindow(handler: ConfigHandler, hostText: string, port: Option<int>, usernameText: string,
                          passwordText: string, interval: Option<int>, theme: string) returns (r: SaveResult)
    modifies handler
    ensures r == SaveConfig(hostText, port, usernameText, passwordText, interval, theme)
    ensures r.Saved? ==> (handler.config ==
      WithPreferences(WithServerDetails(old(handler.config), r.host, r.port, r.username, r.password), r.interval, r.theme))
    ensures !r.Saved? ==> handler.config == old(handler.config)
  {
    r := SaveConfig(hostText, port, usernameText, passwordText, interval, theme);
    if r.Saved? {
      handler.SetServerDetails(r.host, r.port, r.username, r.password);
      handler.SetPreferences(r.interval, r.theme);
    }
  }

  // ------------------------------------------------------------ zoom

  const MinFontSize := 8
  const MaxFontSize := 20

  /** `zoom_in`: one point larger, up to 20. */
  function ZoomedIn(size: int): (r: int)
    ensures size < MaxFontSize ==> r == size + 1
    ensures size >= MaxFontSize ==> r == size
  {
    if size < MaxFontSize then size + 1 else size
  }

  /** `zoom_out`: one point smaller, down to 8. */
  function ZoomedOut(size: int): (r: int)
    ensures size > MinFontSize ==> r == size - 1
    ensures size <= MinFontSize ==> r == size
  {
    if size > MinFontSize then size - 1 else size
  }

  /** Zooming keeps a size that starts between 8 and 20 there. */
  lemma ZoomStaysInRange(size: int)
    requires MinFontSize <= size <= MaxFontSize
    ensures MinFontSize <= ZoomedIn(size) <= MaxFontSize
    ensures MinFontSize <= ZoomedOut(size) <= MaxFontSize
  {
  }

  /** Zooming in and then out, or out and then in, away from the limits, comes back to the same size. */
  lemma ZoomInverse(size: int)
    ensures MinFontSize <= size < MaxFontSize ==> ZoomedOut(ZoomedIn(size)) == size
    ensures MinFontSize < size <= MaxFontSize ==> ZoomedIn(ZoomedOut(size)) == size
  {
  }

  /** Twelve steps in reach the largest size from anywhere in range, and repeating it changes nothing. */
  lemma ZoomInSaturates(size: int, steps: nat)
    requires MinFontSize <= size <= MaxFontSize && steps >= MaxFontSize - MinFontSize
    ensures ZoomedInTimes(size, steps) == MaxFontSize
  {
    ZoomedInTimesValue(size, steps);
  }

  function ZoomedInTimes(size: int, steps: nat): int
  {
    if steps == 0 then size else ZoomedIn(ZoomedInTimes(size, steps - 1))
  }

  lemma {:induction false} ZoomedInTimesValue(size: int, steps: nat)
    requires size <= MaxFontSize
    ensures ZoomedInTimes(size, steps) == if size + steps < MaxFontSize then size + steps else MaxFontSize
  {
    if steps > 0 {
      ZoomedInTimesValue(size, steps - 1);
    }
  }

  // ------------------------------------------------------------ translation

  /** `translate` without format arguments: the translated text, or the key itself. */
  function Translate(translations: map<string, string>, key: string): (text: string)
    ensures key in translations ==> text == translations[key]
    ensures key !in translations ==> text == key
  {
    if key in translations then translations[key] else key
  }

  /** The language the first locale names by prefix. */
  function ByPrefix(lang: string): Option<string>
  {
    if StartsWith(lang, "pt") then Some("pt_br")
    else if StartsWith(lang, "es") then Some("es")
    else if StartsWith(lang, "fr") then Some("fr")
    else if StartsWith(lang, "de") then Some("de")
    else if StartsWith(lang, "en") then Some("en")
    else None
  }

  /** The language the default locale mentions anywhere. */
  function ByContent(lang: string): Option<string>
  {
    if Contains(lang, "pt") then Some("pt_br")
    else if Contains(lang, "es") then Some("es")
    else if Contains(lang, "fr") then Some("fr")
    else if Contains(lang, "de") then Some("de")
    else if Contains(lang, "en") then Some("en")
    else None
  }

  /**
   * `detect_language`: `current` is the language of `locale.getlocale()`,
   * `default` that of `locale.getdefaultlocale()` (None when unset or empty).
   */
  function DetectLanguage(current: Option<string>, default: Option<string>): (lang: string)
    ensures lang in SupportedLanguages
    ensures current.Some? && current.value != "" && ByPrefix(Lower(current.value)).Some? ==>
      lang == ByPrefix(Lower(current.value)).value
    ensures !(current.Some? && current.value != "" && ByPrefix(Lower(current.value)).Some?) ==>
      if default.Some? && default.value != "" && ByContent(Lower(default.value)).Some?
      then lang == ByContent(Lower(default.value)).value
      else lang == "en"
  {
    if current.Some? && current.value != "" && ByPrefix(Lower(current.value)).Some? then
      ByPrefix(Lower(current.value)).value
    else if default.Some? && default.value != "" && ByContent(Lower(default.value)).Some? then
      ByContent(Lower(default.value)).value
    else "en"
  }

  /** A Brazilian locale such as "pt_BR" selects the Brazilian Portuguese translation. */
  lemma DetectBrazilian(rest: string)
    ensures DetectLanguage(Some("pt" + rest), None) == "pt_br"
  {
    var l := Lower("pt" + rest);
    assert l[..2] == "pt";
  }

  /** A default locale "de" is used when the current one is unset. */
  lemma DetectFromDefault()
    ensures DetectLanguage(None, Some("de")) == "de"
  {
    assert Lower("de") == "de";
    assert !Contains("e", "pt") && !Contains("e", "es") && !Contains("e", "fr");
  }
}
