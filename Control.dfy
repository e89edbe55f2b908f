/**
 * The two places that build shell commands for pm2: `control_service`
 * (start, stop, restart, ... one service or all of them) and
 * `LogWindow.fetch_logs` (the last hundred lines of a log file). Running a
 * command is a parameter `run`: what `ssh_client.execute_command` returned.
 * The dialogs are parameters too: `confirmed` is the answer to the yes/no
 * question.
 */
module Control {
  import opened Py
  import Session

  /** `pm2 <action> all` when the ID reads "all" in any case, else `pm2 <action> <id>`. */
  function ControlCommand(action: string, appId: Scalar): (c: string)
    ensures StartsWith(c, "pm2 " + action + " ")
    ensures c[|"pm2 " + action + " "|..] == if Lower(Str(appId)) == "all" then "all" else Str(appId)
  {
    var prefix := "pm2 " + action + " ";
    var c := prefix + (if Lower(Str(appId)) == "all" then "all" else Str(appId));
    assert c[..|prefix|] == prefix;
    c
  }

  /** What `control_service` did. */
  datatype ControlOutcome =
    | NoServiceSelected                                   // app_id is None: a warning, no command
    | Declined                                            // the confirmation was refused: no command
    | Ran(command: string, succeeded: bool, refreshed: bool)

  function ControlService(action: string, appId: Scalar, confirmed: bool, run: string -> Option<string>, callbackCallable: bool): (r: ControlOutcome)
    ensures r.NoServiceSelected? <==> appId == SNull
    ensures r.Declined? <==> appId != SNull && !confirmed
    ensures r.Ran? ==>
      && r.command == ControlCommand(action, appId)
      && (r.succeeded <==> run(r.command).Some?)
      && (r.refreshed <==> r.succeeded && callbackCallable)
  {
    if appId == SNull then NoServiceSelected
    else if !confirmed then Declined
    else
      var command := ControlCommand(action, appId);
      var ok := run(command).Some?;
      Ran(command, ok, ok && callbackCallable)
  }

  /** "ALL", "All" and "all" all address every process. */
  lemma AllInAnyCase(action: string, id: string)
    requires Lower(id) == "all"
    ensures ControlCommand(action, SStr(id)) == ControlCommand(action, SStr("all"))
      == "pm2 " + action + " all"
  {
    assert Lower("all") == "all";
  }

  /** A numeric ID is never taken for "all", and the command ends in text that reads back as that ID. */
  lemma NumericIdRoundTrip(action: string, id: int)
    ensures ParseInt(ControlCommand(action, SInt(id))[|"pm2 " + action + " "|..]) == Some(id)
  {
    var t := Str(SInt(id));
    assert t[0] == '-' || IsDigit(t[0]);
    assert Lower(t)[0] == LowerChar(t[0]) != 'a';
    StrIntRoundTrip(id);
  }

  /**
   * The control commands are pm2 commands, so on a live connection a reply
   * with output on stderr still counts as success: the command runs once and
   * the callback follows.
   */
  lemma ControlIgnoresStderr(action: string, appId: Scalar, connect: nat -> Session.Transport, exec: nat -> Session.Reply)
    requires exec(0).Replied?
    ensures var t := Session.Execute(Session.Present(Session.Active), ControlCommand(action, appId), connect, exec);
      t.output == Some(exec(0).stdout) && t.runs == 1
  {
    var c := ControlCommand(action, appId);
    assert c[..4] == "pm2 " by {
      assert c[..|"pm2 " + action + " "|][..4] == ("pm2 " + action + " ")[..4];
    }
    Session.Pm2IgnoresStderr(c, connect, exec);
  }

  // ------------------------------------------------------------ logs

  /** `tail -n 100 "<path>"`. */
  function LogCommand(path: Scalar): string
  {
    "tail -n 100 \"" + Str(path) + "\""
  }

  /** What the log pane receives. */
  datatype LogView =
    | LogText(text: string)            // the command's output
    | NoLogs                           // the command failed or printed nothing
    | LogNotFound(logType: string)     // no path: the message names the upper-cased log type

  function FetchLogs(logType: string, path: Scalar, run: string -> Option<string>): (v: LogView)
    ensures !Truthy(path) ==> v == LogNotFound(Upper(logType))
    ensures Truthy(path) ==>
      var out := run(LogCommand(path));
      && (v.LogText? <==> out.Some? && out.value != "")
      && (v.LogText? ==> v.text == out.value)
      && (!v.LogText? ==> v == NoLogs)
  {
    if !Truthy(path) then LogNotFound(Upper(logType))
    else
      var out := run(LogCommand(path));
      if out.Some? && out.value != "" then LogText(out.value) else NoLogs
  }

  /** A path without a double quote is passed to `tail` as exactly one quoted argument. */
  lemma LogCommandQuotesPath(path: Scalar)
    requires '"' !in Str(path)
    ensures Split(LogCommand(path), '"') == ["tail -n 100 ", Str(path), ""]
  {
    var head, p := "tail -n 100 ", Str(path);
    var rest := p + ['"'] + "";
    assert '"' !in head;
    assert LogCommand(path) == head + ['"'] + rest;
    SplitAt(head, '"', rest);
    SplitAt(p, '"', "");
    assert Split("", '"') == [""];
  }
}
