/**
 * `SSHClientWrapper`: the client it holds, the retry policy of
 * `execute_command`, the probe loop of `check_required_commands` and `close`.
 * The network is an oracle: `connect(k)` is the transport the k-th connection
 * attempt of the call leaves behind, `exec(k)` what the k-th run of the
 * command gives back.
 */
module Session {
  import opened Py
  import Table

  /**
   * What `client.get_transport()` answers: None (so `.is_active()` raises
   * AttributeError), an inactive transport or an active one.
   */
  datatype Transport = NoTransport | Inactive | Active

  /** `self.client`: None, or a paramiko client with its transport. */
  datatype Client = Absent | Present(transport: Transport)

  /** One `exec_command`: it raises, or stdout and stderr are read back. */
  datatype Reply = Raised | Replied(stdout: string, stderr: string)

  /**
   * The output of a run is returned when the run did not raise and either
   * stderr is empty or the command is a pm2 command; otherwise the run fails
   * (the wrapper raises `Exception(error)` itself).
   */
  predicate Accepted(command: string, reply: Reply)
  {
    reply.Replied? && (reply.stderr == "" || StartsWith(command, "pm2 "))
  }

  /** What one `execute_command` call did: its result, the client it left, connections made, runs issued. */
  datatype Trace = Trace(output: Option<string>, client: Client, connects: nat, runs: nat)

  /**
   * The `except` branch: reconnect once, give up unless the new transport is
   * active, run the command once more and return its output only when that
   * run is accepted. Every exception in here ends in None.
   */
  function Retry(command: string, connect: nat -> Transport, exec: nat -> Reply, connects: nat, runs: nat): (t: Trace)
    ensures t.connects == connects + 1 && t.client == Present(connect(connects))
    ensures t.runs == (if connect(connects) == Active then runs + 1 else runs)
    ensures t.output.Some? <==> connect(connects) == Active && Accepted(command, exec(runs))
    ensures t.output.Some? ==> t.output.value == exec(runs).stdout
  {
    var c := Present(connect(connects));
    if connect(connects) != Active then Trace(None, c, connects + 1, runs)
    else
      var reply := exec(runs);
      if Accepted(command, reply) then Trace(Some(reply.stdout), c, connects + 1, runs + 1)
      else Trace(None, c, connects + 1, runs + 1)
  }

  /** `execute_command` starting from `client`. */
  function Execute(client: Client, command: string, connect: nat -> Transport, exec: nat -> Reply): (t: Trace)
    // the command is issued at most twice, and there are at most two connection attempts
    ensures t.runs <= 2 && t.connects <= 2
    // a result is returned exactly when the last run was accepted, and it is that run's stdout
    ensures t.output.Some? <==> t.runs >= 1 && Accepted(command, exec(t.runs - 1))
    ensures t.output.Some? ==> t.output.value == exec(t.runs - 1).stdout && t.client == Present(Active)
    // a second run happens only after the first one failed
    ensures t.runs == 2 ==> !Accepted(command, exec(0)) && t.connects >= 1
    // the client left behind is the last connection made, or the one we started with
    ensures t.connects >= 1 ==> t.client == Present(connect(t.connects - 1))
    ensures t.connects == 0 ==> t.client == client
    // still inactive after the pre-check reconnect: None without running anything
    ensures (client.Absent? || client == Present(Inactive)) && connect(0) == Inactive ==>
      t == Trace(None, Present(Inactive), 1, 0)
  {
    match client
    case Present(NoTransport) => Retry(command, connect, exec, 0, 0)  // `.is_active()` on None raises
    case Present(Active) => FirstRun(command, connect, exec, 0)
    case _ =>
      match connect(0)
      case NoTransport => Retry(command, connect, exec, 1, 0)
      case Inactive => Trace(None, Present(Inactive), 1, 0)
      case Active => FirstRun(command, connect, exec, 1)
  }

  /** The first `exec_command` on an active client, after `connects` connections: its output, or the retry. */
  function FirstRun(command: string, connect: nat -> Transport, exec: nat -> Reply, connects: nat): (t: Trace)
    ensures t.runs >= 1 && t.connects >= connects
    ensures t.connects == connects <==> Accepted(command, exec(0))
    ensures Accepted(command, exec(0)) ==> t == Trace(Some(exec(0).stdout), Present(Active), connects, 1)
    ensures !Accepted(command, exec(0)) ==> t == Retry(command, connect, exec, connects, 1)
  {
    var reply := exec(0);
    if Accepted(command, reply) then Trace(Some(reply.stdout), Present(Active), connects, 1)
    else Retry(command, connect, exec, connects, 1)
  }

  /** A pm2 command that comes back at all, on a live connection, returns its stdout even with stderr output. */
  lemma Pm2IgnoresStderr(command: string, connect: nat -> Transport, exec: nat -> Reply)
    requires StartsWith(command, "pm2 ") && exec(0).Replied?
    ensures Execute(Present(Active), command, connect, exec) == Trace(Some(exec(0).stdout), Present(Active), 0, 1)
  {
  }

  /** Any other command writing to stderr fails its first run and goes through exactly one reconnect and retry. */
  lemma StderrTriggersRetry(command: string, connect: nat -> Transport, exec: nat -> Reply)
    requires !StartsWith(command, "pm2 ") && exec(0).Replied? && exec(0).stderr != ""
    ensures var t := Execute(Present(Active), command, connect, exec);
      && t.connects == 1
      && t.output == (if connect(0) == Active && Accepted(command, exec(1)) then Some(exec(1).stdout) else None)
  {
  }

  /** A probe found nothing: its output is None or only white space. */
  predicate NotFound(output: Option<string>)
  {
    output.None? || Strip(output.value) == ""
  }

  const RequiredCommands: seq<string> := ["pm2", "mpstat", "free", "top", "awk", "grep", "tail"]

  function ProbeCommand(cmd: string): string
  {
    "command -v " + cmd
  }

  /** For each probe, whether it found nothing. */
  function Absences(outputs: seq<Option<string>>): (a: seq<bool>)
    ensures |a| == |outputs| && forall k :: 0 <= k < |outputs| ==> (a[k] <==> NotFound(outputs[k]))
  {
    seq(|outputs|, k requires 0 <= k < |outputs| => NotFound(outputs[k]))
  }

  lemma AbsencesSnoc(outputs: seq<Option<string>>, o: Option<string>)
    ensures Absences(outputs + [o])[..|outputs|] == Absences(outputs)
    ensures Absences(outputs + [o])[|outputs|] == NotFound(o)
  {
    var a := Absences(outputs + [o]);
    assert forall k :: 0 <= k < |outputs| ==> a[k] == Absences(outputs)[k];
  }

  /** The commands flagged absent, in list order. */
  function Missing(cmds: seq<string>, absent: seq<bool>): (r: seq<string>)
    requires |cmds| == |absent|
    ensures Table.Subsequence(r, cmds)
  {
    if cmds == [] then []
    else
      var n := |cmds| - 1;
      var m, c := Missing(cmds[..n], absent[..n]), cmds[n];
      assert cmds == cmds[..n] + [c];
      Table.SubsequenceSnoc(m, cmds[..n], c);
      if absent[n] then m + [c] else m
  }

  /** A command is reported exactly when one of its entries is flagged absent. */
  lemma {:induction false} MissingMembers(cmds: seq<string>, absent: seq<bool>, x: string)
    requires |cmds| == |absent|
    ensures x in Missing(cmds, absent) <==> exists k :: 0 <= k < |cmds| && cmds[k] == x && absent[k]
  {
    if cmds != [] {
      var n := |cmds| - 1;
      var pre, preAbsent := cmds[..n], absent[..n];
      MissingMembers(pre, preAbsent, x);
      if x in Missing(pre, preAbsent) {
        var k :| 0 <= k < n && pre[k] == x && preAbsent[k];
        assert cmds[k] == x && absent[k];
      }
      if k :| 0 <= k < |cmds| && cmds[k] == x && absent[k] {
        if k < n {
          assert pre[k] == x && preAbsent[k];
        }
      }
    }
  }

  /** The outputs of the probes, one `execute_command` each, and the client they leave. */
  datatype ProbeRun = ProbeRun(outputs: seq<Option<string>>, client: Client)

  /**
   * Probing `cmds` one by one: the i-th probe runs on the client the
   * previous probes left, with the oracles `connect(i)` and `exec(i)`.
   */
  function Probes(client: Client, cmds: seq<string>, connect: nat -> nat -> Transport, exec: nat -> nat -> Reply): (p: ProbeRun)
    ensures |p.outputs| == |cmds|
  {
    if cmds == [] then ProbeRun([], client)
    else
      var n := |cmds| - 1;
      var before := Probes(client, cmds[..n], connect, exec);
      var t := Execute(before.client, ProbeCommand(cmds[n]), connect(n), exec(n));
      ProbeRun(before.outputs + [t.output], t.client)
  }

  /** The probes of the first `i + 1` commands: those of the first `i`, then one more `execute_command`. */
  lemma ProbesSnoc(client: Client, cmds: seq<string>, i: nat, connect: nat -> nat -> Transport, exec: nat -> nat -> Reply)
    requires i < |cmds|
    ensures var p := Probes(client, cmds[..i], connect, exec);
      var t := Execute(p.client, ProbeCommand(cmds[i]), connect(i), exec(i));
      Probes(client, cmds[..i + 1], connect, exec) == ProbeRun(p.outputs + [t.output], t.client)
  {
    assert cmds[..i + 1][..i] == cmds[..i];
  }

  /** The report after one more probe: the earlier report, and the command if its probe found nothing. */
  lemma MissingStep(cmds: seq<string>, outputs: seq<Option<string>>, o: Option<string>, i: nat)
    requires i < |cmds| && |outputs| == i
    ensures Missing(cmds[..i + 1], Absences(outputs + [o]))
      == Missing(cmds[..i], Absences(outputs)) + (if NotFound(o) then [cmds[i]] else [])
  {
    AbsencesSnoc(outputs, o);
    assert cmds[..i + 1][..i] == cmds[..i];
  }

  class SshSession {
    var client: Client

    /** `__init__` followed by `connect`: the client always exists afterwards, whatever the transport. */
    constructor (first: Transport)
      ensures client == Present(first)
    {
      client := Present(first);
    }

    /** `connect`: a fresh client replaces the old one; the connection attempt decides its transport. */
    method Connect(transport: Transport)
      modifies this
      ensures client == Present(transport)
    {
      client := Present(transport);
    }

    method ExecuteCommand(command: string, connect: nat -> Transport, exec: nat -> Reply) returns (output: Option<string>)
      modifies this
      ensures var t := Execute(old(client), command, connect, exec); output == t.output && client == t.client
    {
      var connects, runs := 0, 0;
      var raised := false;
      if client.Absent? || client.transport == Inactive {
        Connect(connect(connects));
        connects := connects + 1;
      } else if client.transport == NoTransport {
        raised := true;
      }
      if !raised && client.transport == Inactive {
        return None;
      }
      if !raised && client.transport == Active {
        var reply := exec(runs);
        runs := runs + 1;
        if Accepted(command, reply) {
          return Some(reply.stdout);
        }
      }
      Connect(connect(connects));
      connects := connects + 1;
      if client.transport != Active {
        return None;
      }
      var reply := exec(runs);
      if Accepted(command, reply) {
        output := Some(reply.stdout);
      } else {
        output := None;
      }
    }

    /** `check_required_commands`: the required commands whose probe printed nothing, in order. */
    method CheckRequiredCommands(connect: nat -> nat -> Transport, exec: nat -> nat -> Reply) returns (missing: seq<string>)
      modifies this
      ensures var p := Probes(old(client), RequiredCommands, connect, exec);
        missing == Missing(RequiredCommands, Absences(p.outputs)) && client == p.client
    {
      ghost var start := client;
      ghost var outputs: seq<Option<string>> := [];
      missing := [];
      var i := 0;
      assert RequiredCommands[..0] == [];
      while i < |RequiredCommands|
        invariant 0 <= i <= |RequiredCommands| && |outputs| == i
        invariant Probes(start, RequiredCommands[..i], connect, exec) == ProbeRun(outputs, client)
        invariant missing == Missing(RequiredCommands[..i], Absences(outputs))
      {
        var cmd := RequiredCommands[i];
        ProbesSnoc(start, RequiredCommands, i, connect, exec);
        var output := ExecuteCommand(ProbeCommand(cmd), connect(i), exec(i));
        MissingStep(RequiredCommands, outputs, output, i);
        if NotFound(output) {
          missing := missing + [cmd];
        }
        outputs := outputs + [output];
        i := i + 1;
      }
      assert RequiredCommands[..i] == RequiredCommands;
    }

    /** `close`: a paramiko client is always truthy, so the client is dropped. */
    method Close()
      modifies this
      ensures client == Absent
    {
      client := Absent;
    }
  }

  /** No entry flagged absent: nothing is reported. */
  lemma {:induction false} NoneMissing(cmds: seq<string>, absent: seq<bool>)
    requires |cmds| == |absent|
    requires forall k :: 0 <= k < |absent| ==> !absent[k]
    ensures Missing(cmds, absent) == []
  {
    if cmds != [] {
      var n := |cmds| - 1;
      NoneMissing(cmds[..n], absent[..n]);
    }
  }

  /** Every entry flagged absent: all the commands are reported, in order. */
  lemma {:induction false} AllMissing(cmds: seq<string>, absent: seq<bool>)
    requires |cmds| == |absent|
    requires forall k :: 0 <= k < |absent| ==> absent[k]
    ensures Missing(cmds, absent) == cmds
  {
    if cmds != [] {
      var n := |cmds| - 1;
      AllMissing(cmds[..n], absent[..n]);
      assert cmds == cmds[..n] + [cmds[n]];
    }
  }

  /**
   * With the connection down for good (no transport comes back active), every
   * probe returns None without running, the client ends inactive, and every
   * required command is reported missing.
   */
  lemma {:induction false} ProbesWhenDown(client: Client, cmds: seq<string>, connect: nat -> nat -> Transport, exec: nat -> nat -> Reply)
    requires client != Present(Active)
    requires forall i: nat, k: nat :: connect(i)(k) != Active
    ensures var p := Probes(client, cmds, connect, exec);
      && (forall k :: 0 <= k < |cmds| ==> p.outputs[k].None?)
      && p.client != Present(Active)
      && Missing(cmds, Absences(p.outputs)) == cmds
  {
    var p := Probes(client, cmds, connect, exec);
    if cmds != [] {
      var n := |cmds| - 1;
      var before := Probes(client, cmds[..n], connect, exec);
      ProbesWhenDown(client, cmds[..n], connect, exec);
      ExecuteWhenDown(before.client, ProbeCommand(cmds[n]), connect(n), exec(n));
      var t := Execute(before.client, ProbeCommand(cmds[n]), connect(n), exec(n));
      assert p.outputs == before.outputs + [t.output];
      forall k | 0 <= k < |cmds| ensures p.outputs[k].None? {
        if k < n { assert p.outputs[k] == before.outputs[k]; }
      }
    }
    var a := Absences(p.outputs);
    forall k | 0 <= k < |a| ensures a[k] {
      assert NotFound(p.outputs[k]);
    }
    AllMissing(cmds, a);
  }

  /** A command on a connection that stays down returns None and leaves no active client. */
  lemma ExecuteWhenDown(client: Client, command: string, connect: nat -> Transport, exec: nat -> Reply)
    requires client != Present(Active)
    requires forall k: nat :: connect(k) != Active
    ensures var t := Execute(client, command, connect, exec);
      t.output.None? && t.client != Present(Active)
  {
  }
}
