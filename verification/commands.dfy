/**
 * The metric-collection commands of the fleet: the configured commands are
 * filtered down to the enabled ones, in their configured order, and each
 * gets its effective polling interval.
 */
module Commands {

  /** A command as configured. Intervals are durations, kept here as plain integers. */
  datatype CommandConfig = CommandConfig(uri: string, kind: string, level: string, enabled: bool, interval: int)

  /** A command as the fleet keeps it: no enabled flag, and the interval it is polled at. */
  datatype Command = Command(uri: string, kind: string, level: string, interval: int)

  /** The interval a kept command runs at: its own when positive, else the global period. */
  function EffectiveInterval(c: CommandConfig, period: int): int
  {
    if c.interval > 0 then c.interval else period
  }

  function ToCommand(c: CommandConfig, period: int): Command
  {
    Command(c.uri, c.kind, c.level, EffectiveInterval(c, period))
  }

  /** The commands the fleet keeps, built in configuration order. */
  function EnabledCommands(configured: seq<CommandConfig>, period: int): seq<Command>
  {
    if configured == [] then []
    else
      var kept := EnabledCommands(configured[..|configured| - 1], period);
      var c := configured[|configured| - 1];
      if c.enabled then kept + [ToCommand(c, period)] else kept
  }

  /**
   * The positions of the enabled commands, in increasing order: every
   * position listed is an enabled command, and every enabled command is listed.
   */
  function EnabledPositions(configured: seq<CommandConfig>): (ps: seq<nat>)
    ensures forall j :: 0 <= j < |ps| ==> ps[j] < |configured| && configured[ps[j]].enabled
    ensures forall j, k :: 0 <= j < k < |ps| ==> ps[j] < ps[k]
    ensures forall i :: 0 <= i < |configured| && configured[i].enabled ==> i in ps
  {
    if configured == [] then []
    else
      var ps := EnabledPositions(configured[..|configured| - 1]);
      if configured[|configured| - 1].enabled then ps + [|configured| - 1] else ps
  }

  /**
   * The kept commands are exactly the enabled ones, in configuration order:
   * the j-th kept command comes from the j-th enabled position, with URI,
   * kind and level copied and the interval falling back to the period.
   */
  lemma {:induction false} EnabledCommandsAt(configured: seq<CommandConfig>, period: int)
    ensures |EnabledCommands(configured, period)| == |EnabledPositions(configured)|
    ensures forall j :: 0 <= j < |EnabledPositions(configured)| ==>
              var c := configured[EnabledPositions(configured)[j]];
              var kept := EnabledCommands(configured, period)[j];
              && kept.uri == c.uri && kept.kind == c.kind && kept.level == c.level
              && (c.interval > 0 ==> kept.interval == c.interval)
              && (c.interval <= 0 ==> kept.interval == period)
  {
    if configured != [] {
      EnabledCommandsAt(configured[..|configured| - 1], period);
      var prefix := configured[..|configured| - 1];
      assert forall j :: 0 <= j < |EnabledPositions(prefix)| ==>
        configured[EnabledPositions(prefix)[j]] == prefix[EnabledPositions(prefix)[j]];
    }
  }

  /** With a positive global period every kept command has a positive interval. */
  lemma {:induction false} EnabledCommandsPositive(configured: seq<CommandConfig>, period: int)
    requires period > 0
    ensures forall c :: c in EnabledCommands(configured, period) ==> c.interval > 0
  {
    if configured != [] {
      EnabledCommandsPositive(configured[..|configured| - 1], period);
    }
  }

  /**
   * Builds the kept command list the way the fleet constructor does, by
   * appending each enabled command in turn.
   */
  method BuildCommands(configured: seq<CommandConfig>, period: int) returns (cmds: seq<Command>)
    ensures cmds == EnabledCommands(configured, period)
  {
    cmds := [];
    for i := 0 to |configured|
      invariant cmds == EnabledCommands(configured[..i], period)
    {
      var c := configured[i];
      if c.enabled {
        var interval := period;
        if c.interval > 0 {
          interval := c.interval;
        }
        cmds := cmds + [Command(c.uri, c.kind, c.level, interval)];
      }
      assert configured[..i + 1][..i] == configured[..i];
    }
    assert configured[..|configured|] == configured;
  }
}
