/**
 * The console commands: the shared argument parser of Command, the help switch, the prefix match
 * that picks a command, and the rollback command that hands a target version to the manager.
 */
module Commands {
  import opened Results
  import opened JavaText
  import opened Manager

  const HELP_PARAM := "-h"
  const VERSION_PARAM := "-version"

  /** The help text of the rollback command (the text block, indentation stripped). */
  const HELP_MESSAGE :=
    "Command: rollback\n"
    + "Description: Rolls back database migrations to a specified version.\n"
    + "Usage:\n"
    + "  rollback -version <target_version> - Specifies the target database version to roll back to.\n"
    + "  rollback -h                        - Displays this help message.\n"
    + "Returns:\n"
    + "  Rolls back all migrations up to (and including) the specified version.\n"

  /** WrongCommandParamException with its message, and NumberFormatException from Integer.parseInt. */
  datatype CommandError = WrongCommandParam(message: string) | NumberFormat(input: string)

  /** A command: the word that selects it, the parameters it documents, and its help text. */
  datatype Command = Command(word: string, applicableParams: seq<string>, helpInfo: string)

  /** The rollback command as its constructor registers it. */
  const ROLLBACK := Command("rollback", [VERSION_PARAM], HELP_MESSAGE)

  // ---------------------------------------------------------------------------
  // isSuit

  /** isSuit: the typed command starts with the command word. */
  predicate IsSuit(command: Command, input: string) {
    StartsWith(input, command.word)
  }

  /** A command suits exactly the inputs made of its word and any continuation, "rollbacks" too. */
  lemma IsSuitIsPrefix(command: Command, input: string)
    ensures IsSuit(command, input) <==> exists rest :: input == command.word + rest
  {
    if IsSuit(command, input) {
      var rest := input[|command.word|..];
      assert input == command.word + rest;
    }
    if exists rest :: input == command.word + rest {
      var rest :| input == command.word + rest;
      assert input[..|command.word|] == command.word;
    }
  }

  // ---------------------------------------------------------------------------
  // parseParams

  /** A token that starts with "-" names a parameter. */
  predicate IsFlag(token: string) {
    StartsWith(token, "-")
  }

  /** The loop of parseParams from position `i`, with the parameters found so far. */
  function ParseFrom(args: seq<string>, i: nat, params: map<string, string>): Result<map<string, string>, CommandError>
    decreases |args| - i
  {
    if i >= |args| then Success(params)
    else if IsFlag(args[i]) then
      if i + 1 < |args| && !IsFlag(args[i + 1]) then ParseFrom(args, i + 2, params[args[i] := args[i + 1]])
      else Failure(WrongCommandParam("Missing value for parameter: " + args[i]))
    else Failure(WrongCommandParam("Invalid argument format: " + args[i]))
  }

  /** parseParams: args[0] is the command word, the rest are "-name value" pairs. */
  function Params(args: seq<string>): Result<map<string, string>, CommandError> {
    ParseFrom(args, 1, map[])
  }

  /** `k` is a parameter position for a parse that started at `start`. */
  predicate KeyAt(start: nat, k: int) {
    start <= k && (k - start) % 2 == 0
  }

  /** From `start` on, every parameter position holds a flag followed by a value. */
  ghost predicate PairedFrom(args: seq<string>, start: nat) {
    forall k :: KeyAt(start, k) && k < |args| ==> IsFlag(args[k]) && k + 1 < |args| && !IsFlag(args[k + 1])
  }

  /** The error parseParams raises at a bad parameter position. */
  function ErrorAt(args: seq<string>, k: nat): CommandError
    requires k < |args|
  {
    if IsFlag(args[k]) then WrongCommandParam("Missing value for parameter: " + args[k])
    else WrongCommandParam("Invalid argument format: " + args[k])
  }

  lemma PairedStep(args: seq<string>, i: nat)
    requires i < |args|
    ensures PairedFrom(args, i) <==>
      IsFlag(args[i]) && i + 1 < |args| && !IsFlag(args[i + 1]) && PairedFrom(args, i + 2)
  {
    assert KeyAt(i, i);
    if IsFlag(args[i]) && i + 1 < |args| && !IsFlag(args[i + 1]) && PairedFrom(args, i + 2) {
      forall k | KeyAt(i, k) && k < |args| ensures IsFlag(args[k]) && k + 1 < |args| && !IsFlag(args[k + 1]) {
        if k != i {
          assert KeyAt(i + 2, k);
        }
      }
    }
    if PairedFrom(args, i) {
      var next := i + 2;
      forall k | KeyAt(next, k) && k < |args| ensures IsFlag(args[k]) && k + 1 < |args| && !IsFlag(args[k + 1]) {
        assert KeyAt(i, k);
      }
    }
  }

  /** The loop finishes exactly when every parameter position holds a flag followed by a value. */
  lemma {:induction false} ParseFromSucceeds(args: seq<string>, i: nat, params: map<string, string>)
    ensures ParseFrom(args, i, params).Success? <==> PairedFrom(args, i)
    decreases |args| - i
  {
    if i < |args| {
      PairedStep(args, i);
      if IsFlag(args[i]) && i + 1 < |args| && !IsFlag(args[i + 1]) {
        ParseFromSucceeds(args, i + 2, params[args[i] := args[i + 1]]);
      }
    }
  }

  /** parseParams succeeds exactly on "word -a x -b y ..." argument lists. */
  lemma ParamsSucceeds(args: seq<string>)
    ensures Params(args).Success? <==> PairedFrom(args, 1)
  {
    ParseFromSucceeds(args, 1, map[]);
  }

  /** parseParams ignores args[0]: no argument list shorter than two tokens has a parameter. */
  lemma ShortArgsHaveNoParams(args: seq<string>)
    requires |args| <= 1
    ensures Params(args) == Success(map[])
  {
  }

  /** The loop fails at the first bad parameter position, with that position's message. */
  lemma {:induction false} ParseFromFailsAt(args: seq<string>, i: nat, params: map<string, string>, k: nat)
    requires KeyAt(i, k) && k < |args|
    requires forall j :: KeyAt(i, j) && j < k ==> IsFlag(args[j]) && j + 1 < |args| && !IsFlag(args[j + 1])
    requires !(IsFlag(args[k]) && k + 1 < |args| && !IsFlag(args[k + 1]))
    ensures ParseFrom(args, i, params) == Failure(ErrorAt(args, k))
    decreases |args| - i
  {
    if k != i {
      assert KeyAt(i, i);
      var next := i + 2;
      forall j | KeyAt(next, j) && j < k ensures IsFlag(args[j]) && j + 1 < |args| && !IsFlag(args[j + 1]) {
        assert KeyAt(i, j);
      }
      ParseFromFailsAt(args, i + 2, params[args[i] := args[i + 1]], k);
    }
  }

  /**
   * A parameter keeps the value of its last occurrence; a key the rest of the list does not name
   * keeps whatever it had.
   */
  lemma {:induction false} ParseFromKeeps(args: seq<string>, i: nat, params: map<string, string>, key: string)
    requires ParseFrom(args, i, params).Success?
    requires forall j :: KeyAt(i, j) && j < |args| ==> args[j] != key
    ensures key in ParseFrom(args, i, params).value <==> key in params
    ensures key in params ==> ParseFrom(args, i, params).value[key] == params[key]
    decreases |args| - i
  {
    if i < |args| {
      assert KeyAt(i, i);
      forall j | KeyAt(i + 2, j) && j < |args| ensures args[j] != key {
        assert KeyAt(i, j);
      }
      ParseFromKeeps(args, i + 2, params[args[i] := args[i + 1]], key);
    }
  }

  /** The value of a parameter is the token after its last occurrence. */
  lemma {:induction false} ParseFromLastValue(args: seq<string>, i: nat, params: map<string, string>, k: nat)
    requires ParseFrom(args, i, params).Success?
    requires KeyAt(i, k) && k < |args|
    requires forall j :: KeyAt(i, j) && k < j < |args| ==> args[j] != args[k]
    ensures k + 1 < |args|
    ensures args[k] in ParseFrom(args, i, params).value
    ensures ParseFrom(args, i, params).value[args[k]] == args[k + 1]
    decreases |args| - i
  {
    ParseFromSucceeds(args, i, params);
    assert IsFlag(args[k]) && k + 1 < |args|;
    var next := params[args[i] := args[i + 1]];
    if k == i {
      forall j | KeyAt(i + 2, j) && j < |args| ensures args[j] != args[k] {
        assert KeyAt(i, j);
      }
      ParseFromKeeps(args, i + 2, next, args[k]);
    } else {
      assert KeyAt(i + 2, k);
      forall j | KeyAt(i + 2, j) && k < j < |args| ensures args[j] != args[k] {
        assert KeyAt(i, j);
      }
      ParseFromLastValue(args, i + 2, next, k);
    }
  }

  /**
   * Every parameter found is a flag of the list with the token right after it as its value, or
   * was already there when the loop reached position `i`.
   */
  lemma {:induction false} ParseFromEntries(args: seq<string>, i: nat, params: map<string, string>, key: string)
    requires ParseFrom(args, i, params).Success?
    requires key in ParseFrom(args, i, params).value
    ensures (exists k :: KeyAt(i, k) && k + 1 < |args| && args[k] == key &&
               ParseFrom(args, i, params).value[key] == args[k + 1])
         || (key in params && ParseFrom(args, i, params).value[key] == params[key])
    decreases |args| - i
  {
    if i < |args| {
      var next := params[args[i] := args[i + 1]];
      var r := ParseFrom(args, i, params).value;
      ParseFromEntries(args, i + 2, next, key);
      if exists k :: KeyAt(i + 2, k) && k + 1 < |args| && args[k] == key && r[key] == args[k + 1] {
        var k :| KeyAt(i + 2, k) && k + 1 < |args| && args[k] == key && r[key] == args[k + 1];
        assert KeyAt(i, k);
      } else if key == args[i] {
        assert KeyAt(i, i);
      }
    }
  }

  /** On success every key is a flag and every value is not. */
  lemma ParamsShape(args: seq<string>)
    requires Params(args).Success?
    ensures forall key :: key in Params(args).value ==> IsFlag(key) && !IsFlag(Params(args).value[key])
  {
    ParamsSucceeds(args);
    forall key | key in Params(args).value ensures IsFlag(key) && !IsFlag(Params(args).value[key]) {
      ParseFromEntries(args, 1, map[], key);
    }
  }

  /** The loop of parseParams, filling the map in place and skipping a value with i++. */
  method ParseParams(args: seq<string>) returns (r: Result<map<string, string>, CommandError>)
    ensures r == Params(args)
  {
    var parameters: map<string, string> := map[];
    var i := 1;
    while i < |args|
      invariant 1 <= i
      invariant ParseFrom(args, i, parameters) == Params(args)
      decreases |args| - i
    {
      var arg := args[i];
      if IsFlag(arg) {
        if i + 1 < |args| && !IsFlag(args[i + 1]) {
          parameters := parameters[arg := args[i + 1]];
          i := i + 1;
        } else {
          return Failure(WrongCommandParam("Missing value for parameter: " + arg));
        }
      } else {
        return Failure(WrongCommandParam("Invalid argument format: " + arg));
      }
      i := i + 1;
    }
    return Success(parameters);
  }

  // ---------------------------------------------------------------------------
  // Integer.parseInt

  const INT_MIN := -0x8000_0000
  const INT_MAX := 0x7FFF_FFFF

  predicate IsDigit(c: char) {
    '0' <= c <= '9'
  }

  predicate AllDigits(s: string) {
    forall i :: 0 <= i < |s| ==> IsDigit(s[i])
  }

  /** The value of a string of decimal digits, most significant first. */
  function DigitsValue(s: string): nat
    requires AllDigits(s)
  {
    if s == [] then 0 else 10 * DigitsValue(s[..|s| - 1]) + (s[|s| - 1] as int - '0' as int)
  }

  /** Integer.parseInt: an optional sign and at least one digit, within 32 bits. */
  function ParseInt(s: string): (r: Result<int, CommandError>)
    ensures r.Success? ==> INT_MIN <= r.value <= INT_MAX
    ensures r.Failure? ==> r.error == NumberFormat(s)
  {
    var signed := |s| > 0 && (s[0] == '-' || s[0] == '+');
    var digits := if signed then s[1..] else s;
    if digits == [] || !AllDigits(digits) then Failure(NumberFormat(s))
    else
      var value: int := if signed && s[0] == '-' then -(DigitsValue(digits) as int) else DigitsValue(digits);
      if INT_MIN <= value <= INT_MAX then Success(value) else Failure(NumberFormat(s))
  }

  /** Integer.toString of a non-negative number. */
  function Decimal(n: nat): (r: string)
    ensures |r| > 0 && AllDigits(r)
  {
    var last := [('0' as int + n % 10) as char];
    if n < 10 then last else Decimal(n / 10) + last
  }

  /** Integer.toString. */
  function Show(n: int): string {
    if n < 0 then "-" + Decimal(-n) else Decimal(n)
  }

  lemma {:induction false} DecimalValue(n: nat)
    ensures DigitsValue(Decimal(n)) == n
  {
    if n >= 10 {
      var s := Decimal(n);
      assert s[..|s| - 1] == Decimal(n / 10);
      DecimalValue(n / 10);
    }
  }

  /** An unsigned digit string is read as its value. */
  lemma ParseIntOfDigits(d: string)
    requires d != [] && AllDigits(d) && DigitsValue(d) <= INT_MAX
    ensures ParseInt(d) == Success(DigitsValue(d))
  {
    assert IsDigit(d[0]);
  }

  /** A minus sign before a digit string negates its value. */
  lemma ParseIntOfNegated(d: string)
    requires d != [] && AllDigits(d) && INT_MIN <= -(DigitsValue(d) as int)
    ensures ParseInt("-" + d) == Success(-(DigitsValue(d) as int))
  {
    var s := "-" + d;
    assert s[0] == '-';
    assert s[1..] == d;
  }

  /** parseInt reads back every 32-bit number as toString writes it. */
  lemma ParseIntOfShow(n: int)
    requires INT_MIN <= n <= INT_MAX
    ensures ParseInt(Show(n)) == Success(n)
  {
    if n < 0 {
      DecimalValue(-n);
      ParseIntOfNegated(Decimal(-n));
    } else {
      DecimalValue(n);
      ParseIntOfDigits(Decimal(n));
    }
  }

  /** parseInt accepts only an optional sign followed by digits. */
  lemma ParseIntAcceptsDigits(s: string)
    requires ParseInt(s).Success?
    ensures s != [] && (AllDigits(s) || ((s[0] == '-' || s[0] == '+') && |s| > 1 && AllDigits(s[1..])))
  {
  }

  // ---------------------------------------------------------------------------
  // RollbackCommand.execute and Command.handleHelpArgument

  /** The target version `execute` passes on: parse errors first, then a missing -version, then parseInt. */
  function RollbackTarget(args: seq<string>): Result<int, CommandError> {
    match Params(args)
    case Failure(e) => Failure(e)
    case Success(params) =>
      if VERSION_PARAM !in params then Failure(WrongCommandParam("Parameter -version is required"))
      else ParseInt(params[VERSION_PARAM])
  }

  /** A well-formed argument list that never names -version is refused with the required-parameter message. */
  lemma VersionRequired(args: seq<string>)
    requires PairedFrom(args, 1)
    requires forall k :: KeyAt(1, k) && k < |args| ==> args[k] != VERSION_PARAM
    ensures RollbackTarget(args) == Failure(WrongCommandParam("Parameter -version is required"))
  {
    ParamsSucceeds(args);
    ParseFromKeeps(args, 1, map[], VERSION_PARAM);
  }

  /** The target is the number after the last -version, whatever the other parameters are. */
  lemma VersionTarget(args: seq<string>, k: nat, n: int)
    requires PairedFrom(args, 1)
    requires KeyAt(1, k) && k < |args| && args[k] == VERSION_PARAM
    requires forall j :: KeyAt(1, j) && k < j < |args| ==> args[j] != VERSION_PARAM
    requires INT_MIN <= n <= INT_MAX && k + 1 < |args| && args[k + 1] == Show(n)
    ensures RollbackTarget(args) == Success(n)
  {
    ParamsSucceeds(args);
    ParseFromLastValue(args, 1, map[], k);
    ParseIntOfShow(n);
  }

  /** An argument error is reported before -version is looked at. */
  lemma ArgumentErrorsFirst(args: seq<string>, k: nat)
    requires KeyAt(1, k) && k < |args|
    requires forall j :: KeyAt(1, j) && j < k ==> IsFlag(args[j]) && j + 1 < |args| && !IsFlag(args[j + 1])
    requires !(IsFlag(args[k]) && k + 1 < |args| && !IsFlag(args[k + 1]))
    ensures RollbackTarget(args) == Failure(ErrorAt(args, k))
  {
    ParseFromFailsAt(args, 1, map[], k);
  }

  /** "rollback -h" does not parse, yet handleHelpArgument answers it with the help text. */
  lemma HelpDespiteBadArguments()
    ensures HELP_PARAM in ["rollback", HELP_PARAM]
    ensures Params(["rollback", HELP_PARAM]) == Failure(WrongCommandParam("Missing value for parameter: -h"))
  {
    var args := ["rollback", HELP_PARAM];
    assert IsFlag(args[1]) by {
      assert HELP_PARAM[0..1] == "-";
    }
    assert "Missing value for parameter: " + args[1] == "Missing value for parameter: -h";
  }

  /** What handleHelpArgument does: print the help text, or run the command. */
  datatype Reply = Printed(text: string) | Executed(outcome: Outcome)

  class RollbackCommand {
    const command: Command
    const migrationManager: MigrationManager

    constructor (migrationManager: MigrationManager)
      ensures command == ROLLBACK && this.migrationManager == migrationManager
    {
      command := ROLLBACK;
      this.migrationManager := migrationManager;
    }

    /** execute: check the arguments, then call executeRollbacks once with the parsed target. */
    method Execute(args: seq<string>, listing: Option<Listing>) returns (r: Result<Outcome, CommandError>)
      requires migrationManager.Valid()
      modifies migrationManager.executor.db
      ensures migrationManager.Valid()
      ensures RollbackTarget(args).Failure? ==>
        r == Failure(RollbackTarget(args).error) && unchanged(migrationManager.executor.db)
      ensures RollbackTarget(args).Success? ==> (r.Success? &&
        (migrationManager.executor.db.published, r.value) ==
          RollbackRun(migrationManager.executor.resources, migrationManager.executor.db.refuses,
                      old(migrationManager.executor.db.published), migrationManager.migrationsDirectory,
                      listing, RollbackTarget(args).value))
    {
      var params := ParseParams(args);
      if params.Failure? {
        return Failure(params.error);
      }
      if VERSION_PARAM !in params.value {
        return Failure(WrongCommandParam("Parameter -version is required"));
      }
      var target := ParseInt(params.value[VERSION_PARAM]);
      if target.Failure? {
        return Failure(target.error);
      }
      var outcome := migrationManager.ExecuteRollbacks(listing, target.value);
      r := Success(outcome);
    }

    /** handleHelpArgument: "-h" anywhere prints the help text instead of running the command. */
    method HandleHelpArgument(args: seq<string>, listing: Option<Listing>) returns (r: Result<Reply, CommandError>)
      requires migrationManager.Valid()
      modifies migrationManager.executor.db
      ensures migrationManager.Valid()
      ensures HELP_PARAM in args ==> r == Success(Printed(command.helpInfo)) && unchanged(migrationManager.executor.db)
      ensures HELP_PARAM !in args && RollbackTarget(args).Failure? ==>
        r == Failure(RollbackTarget(args).error) && unchanged(migrationManager.executor.db)
      ensures HELP_PARAM !in args && RollbackTarget(args).Success? ==> (r.Success? && r.value.Executed? &&
        (migrationManager.executor.db.published, r.value.outcome) ==
          RollbackRun(migrationManager.executor.resources, migrationManager.executor.db.refuses,
                      old(migrationManager.executor.db.published), migrationManager.migrationsDirectory,
                      listing, RollbackTarget(args).value))
    {
      if HELP_PARAM in args {
        return Success(Printed(command.helpInfo));
      }
      var done := Execute(args, listing);
      if done.Failure? {
        return Failure(done.error);
      }
      r := Success(Executed(done.value));
    }
  }
}
