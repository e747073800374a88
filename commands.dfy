/**
 * The argument-count dispatch of `onCommand`, which is the same in both plugin versions:
 * which of the four commands was issued (case-insensitively), whether the argument count
 * fits, whether the sender is a player, and what the arguments become (statue names are
 * lower-cased, entity kind names upper-cased). What the chosen operation then does is
 * modelled by each version's plugin class.
 */
module Commands {
  import opened Text

  /** What `onCommand` decides to do. */
  datatype Action =
    | CreateStatueCmd(statueName: string, entityName: string)
    | MoveStatueCmd(statueName: string)
    | ListStatuesCmd
    | DeleteStatueCmd(statueName: string)
    | AdjustStatueCmd(statueName: string)
    | Say(text: string)
    | NotHandled

  /** The four command names, as declared by the plugin. */
  const CreateCommand: string := "ms"
  const MoveCommand: string := "msmove"
  const DeleteCommand: string := "msdel"
  const AdjustCommand: string := "msadjust"

  const PlayersOnlyText: string := "This command can only be used by players."
  const CreateUsage: string := "Usage: /ms <name> <entity name>"
  const MoveUsage: string := "Usage: /msmove <name>"
  const DeleteUsage: string := "Usage: /msdel [statue name]"
  const AdjustUsage: string := "Usage: /msadjust <name> <rotation> <pitch>"
  const InvalidNumbersText: string := "Invalid yaw or pitch value. Please provide valid numbers."

  /** `/msdel` with no argument, or with one empty argument, lists the caller's statues. */
  predicate AsksForList(args: seq<string>)
  {
    |args| == 0 || (|args| == 1 && args[0] == "")
  }

  /**
   * `onCommand`: the action chosen for `command` with `args`, from a player or not; `parsesAsDouble`
   * stands for `Double.parseDouble` succeeding. Only `NotHandled` makes the handler return false.
   * Each command-name test is `equalsIgnoreCase` (`CommandTestsIgnoreCase`).
   */
  function Dispatch(command: string, args: seq<string>, isPlayer: bool, parsesAsDouble: string -> bool): (a: Action)
    ensures a != NotHandled <==> IsPluginCommand(command)
    ensures a.Say? ==> a.text in {PlayersOnlyText, CreateUsage, MoveUsage, DeleteUsage, AdjustUsage, InvalidNumbersText}
    ensures a.Say? && a.text == PlayersOnlyText ==> !isPlayer
  {
    if Lower(command) == CreateCommand then
      if |args| >= 2 then
        if isPlayer then CreateStatueCmd(Lower(args[0]), Upper(args[1])) else Say(PlayersOnlyText)
      else Say(CreateUsage)
    else if Lower(command) == MoveCommand then
      if |args| == 1 then
        if isPlayer then MoveStatueCmd(Lower(args[0])) else Say(PlayersOnlyText)
      else Say(MoveUsage)
    else if Lower(command) == DeleteCommand then
      if AsksForList(args) then
        if isPlayer then ListStatuesCmd else Say(PlayersOnlyText)
      else if |args| == 1 then DeleteStatueCmd(Lower(args[0]))
      else Say(DeleteUsage)
    else if Lower(command) == AdjustCommand then
      if |args| == 3 then
        if !isPlayer then Say(PlayersOnlyText)
        else if parsesAsDouble(args[1]) && parsesAsDouble(args[2]) then AdjustStatueCmd(Lower(args[0]))
        else Say(InvalidNumbersText)
      else Say(AdjustUsage)
    else NotHandled
  }

  /** The four command names, as the server reports them. */
  predicate IsPluginCommand(command: string)
  {
    Lower(command) in {CreateCommand, MoveCommand, DeleteCommand, AdjustCommand}
  }

  /** Case-mapping a character twice gives the same lower case as mapping it once. */
  lemma {:induction false} LowerOfUpper(s: string)
    ensures Lower(Upper(s)) == Lower(s)
  {
    if s != [] {
      LowerOfUpper(s[1..]);
      assert Upper(s) == [UpperChar(s[0])] + Upper(s[1..]);
      assert Lower(Upper(s)) == [LowerChar(UpperChar(s[0]))] + Lower(Upper(s[1..]));
    }
  }

  /**
   * The handler returns true exactly for the four plugin commands, and which operation runs,
   * with which arguments, depends on the argument count and the sender as follows.
   */
  lemma DispatchByArgumentCount(command: string, args: seq<string>, isPlayer: bool, parsesAsDouble: string -> bool)
    ensures var a := Dispatch(command, args, isPlayer, parsesAsDouble);
      && (a != NotHandled <==> IsPluginCommand(command))
      && (a.CreateStatueCmd? <==> Lower(command) == CreateCommand && |args| >= 2 && isPlayer)
      && (a.CreateStatueCmd? ==> a.statueName == Lower(args[0]) && a.entityName == Upper(args[1]))
      && (a.MoveStatueCmd? <==> Lower(command) == MoveCommand && |args| == 1 && isPlayer)
      && (a.ListStatuesCmd? <==> Lower(command) == DeleteCommand && AsksForList(args) && isPlayer)
      && (a.DeleteStatueCmd? <==> Lower(command) == DeleteCommand && |args| == 1 && args[0] != "")
      && (a.AdjustStatueCmd? <==>
            Lower(command) == AdjustCommand && |args| == 3 && isPlayer && parsesAsDouble(args[1]) && parsesAsDouble(args[2]))
      && (a.MoveStatueCmd? || a.DeleteStatueCmd? || a.AdjustStatueCmd? ==> a.statueName == Lower(args[0]))
  {
    var name := Lower(command);
    if name == CreateCommand {
    } else if name == MoveCommand {
    } else if name == DeleteCommand {
    } else if name == AdjustCommand {
    }
  }

  /** The command names are already lower case. */
  lemma LowerOfLiterals()
    ensures Lower(CreateCommand) == CreateCommand && Lower(MoveCommand) == MoveCommand
    ensures Lower(DeleteCommand) == DeleteCommand && Lower(AdjustCommand) == AdjustCommand
  {
    assert Lower("ms") == "ms";
    assert Lower("msmove") == "msmove";
    assert Lower("msdel") == "msdel";
    assert Lower("msadjust") == "msadjust";
  }

  /**
   * The tests of `Dispatch` are `command.equalsIgnoreCase(name)` for each command name: since the
   * names are lower case, that is the lower-cased command being the name.
   */
  lemma CommandTestsIgnoreCase(command: string)
    ensures EqualsIgnoreCase(command, CreateCommand) <==> Lower(command) == CreateCommand
    ensures EqualsIgnoreCase(command, MoveCommand) <==> Lower(command) == MoveCommand
    ensures EqualsIgnoreCase(command, DeleteCommand) <==> Lower(command) == DeleteCommand
    ensures EqualsIgnoreCase(command, AdjustCommand) <==> Lower(command) == AdjustCommand
  {
    LowerOfLiterals();
  }

  /** Only `/msdel <name>` reaches an operation when the console issues a command. */
  lemma ConsoleOnlyDeletes(command: string, args: seq<string>, parsesAsDouble: string -> bool)
    ensures var a := Dispatch(command, args, false, parsesAsDouble);
      a.Say? || a.NotHandled? || a.DeleteStatueCmd?
  {
  }

  /** The command name is matched ignoring case: an upper-cased name dispatches the same way. */
  lemma DispatchIgnoresCase(command: string, args: seq<string>, isPlayer: bool, parsesAsDouble: string -> bool)
    ensures Dispatch(Upper(command), args, isPlayer, parsesAsDouble) == Dispatch(command, args, isPlayer, parsesAsDouble)
  {
    LowerOfUpper(command);
  }

  /** Statue names handed to an operation are in normal (lower-case) form. */
  lemma StatueNamesAreLowerCase(command: string, args: seq<string>, isPlayer: bool, parsesAsDouble: string -> bool)
    ensures var a := Dispatch(command, args, isPlayer, parsesAsDouble);
      (a.CreateStatueCmd? || a.MoveStatueCmd? || a.DeleteStatueCmd? || a.AdjustStatueCmd?) ==> HasNoUpperCase(a.statueName)
  {
    var a := Dispatch(command, args, isPlayer, parsesAsDouble);
    if a.CreateStatueCmd? || a.MoveStatueCmd? || a.DeleteStatueCmd? || a.AdjustStatueCmd? {
      DispatchByArgumentCount(command, args, isPlayer, parsesAsDouble);
      LowerIsNormal(args[0]);
    }
  }
}
