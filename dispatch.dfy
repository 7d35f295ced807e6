/**
 * `execute_command`: split a stage on spaces and act on the first token. `cd`, `pwd`,
 * `set` and `unset` are handled in the process itself; anything else is handed to
 * `execvp` with the whole argument vector.
 */
module Dispatch {
  import opened Wrappers
  import opened Store
  import opened Tokenizer
  import opened Expander

  /** The branch `execute_command` takes. */
  datatype Action =
    | Nothing                          // no token: return at once
    | Cd(path: Option<string>)         // `args[1]`, which is NULL when `cd` stands alone
    | Pwd
    | SetVar(key: string, value: string)
    | SetUsage                         // `set` with fewer than two arguments: error message only
    | UnsetVar(key: string)
    | UnsetUsage                       // `unset` with no argument: error message only
    | External(argv: seq<string>)      // fork and execvp

  /** Which branch a tokenized stage selects. */
  function Classify(args: seq<string>): Action {
    if args == [] then Nothing
    else if args[0] == "cd" then Cd(if |args| >= 2 then Some(args[1]) else None)
    else if args[0] == "pwd" then Pwd
    else if args[0] == "set" then (if |args| >= 3 then SetVar(args[1], args[2]) else SetUsage)
    else if args[0] == "unset" then (if |args| >= 2 then UnsetVar(args[1]) else UnsetUsage)
    else External(args)
  }

  /** What a branch does to the variable table. */
  function Effect(vars: seq<EnvVar>, a: Action): seq<EnvVar> {
    match a
    case SetVar(k, v) => SetBinding(vars, k, v)
    case UnsetVar(k) => UnsetBinding(vars, k)
    case _ => vars
  }

  /** Running `command` does not write past the end of the table. */
  predicate CommandFits(vars: seq<EnvVar>, command: string) {
    var a := Classify(Tokens(command, ' '));
    a.SetVar? ==> Fits(vars, a.key)
  }

  /**
   * The table is touched only by `set` with at least three tokens (using the second and third)
   * and by `unset` with at least two; every other branch leaves it as it was.
   */
  lemma MutationGatedByArity(vars: seq<EnvVar>, args: seq<string>)
    ensures Classify(args).SetVar? <==> |args| >= 3 && args[0] == "set"
    ensures Classify(args).SetVar? ==> Classify(args) == SetVar(args[1], args[2])
    ensures Classify(args).UnsetVar? <==> |args| >= 2 && args[0] == "unset"
    ensures Classify(args).UnsetVar? ==> Classify(args) == UnsetVar(args[1])
    ensures !Classify(args).SetVar? && !Classify(args).UnsetVar? ==> Effect(vars, Classify(args)) == vars
  {
  }

  /** `set` looks only at its first two arguments: tokens after the third change nothing. */
  lemma SetIgnoresExtraTokens(args: seq<string>, extra: seq<string>)
    requires |args| >= 3 && args[0] == "set"
    ensures Classify(args + extra) == Classify(args[..3])
  {
    assert (args + extra)[..3] == args[..3];
  }

  /** Only an empty argument vector selects no branch. */
  lemma ClassifyNothingIff(args: seq<string>)
    ensures Classify(args) == Nothing <==> args == []
  {
  }

  /** A stage that is empty or all spaces selects no branch and leaves the table alone; any other stage selects one. */
  lemma BlankStageIsNoOp(vars: seq<EnvVar>, stage: string)
    ensures Classify(Tokens(stage, ' ')) == Nothing <==> forall i :: 0 <= i < |stage| ==> stage[i] == ' '
    ensures Classify(Tokens(stage, ' ')) == Nothing ==> Effect(vars, Classify(Tokens(stage, ' '))) == vars
  {
    NoTokensIff(stage, ' ');
    ClassifyNothingIff(Tokens(stage, ' '));
  }

  /** A first token other than the four builtin names goes to `execvp` with the argument vector unchanged. */
  lemma ExternalGetsWholeVector(args: seq<string>)
    requires args != [] && args[0] !in {"cd", "pwd", "set", "unset"}
    ensures Classify(args) == External(args)
  {
  }

  /** `set X 1`, then `set X 2`, then expanding `$X` gives `2`, when the commands act on the same table. */
  lemma SetTwiceThenExpand()
    ensures Expand("$X", Effect(Effect([], Classify(["set", "X", "1"])), Classify(["set", "X", "2"]))) == "2"
  {
    SetTwice([], "X", "1", "2");
    var vars := SetBinding([], "X", "2");
    assert vars == [EnvVar("X", "2")];
    assert vars[..0] == [];
    assert IndexOf("$X", "$X") == Some(0) by { assert "$X"[0..2] == "$X"; }
  }

  /** `unset` of a name that was never set is silent and changes nothing. */
  lemma UnsetNeverSet(vars: seq<EnvVar>, name: string)
    requires Lookup(vars, name).None?
    ensures Classify(["unset", name]) == UnsetVar(name)
    ensures Effect(vars, Classify(["unset", name])) == vars
  {
    UnsetAbsent(vars, name);
  }

  /** `execute_command` run against the table `env`. */
  method ExecuteCommand(env: Env, command: string) returns (action: Action)
    requires env.Valid() && CommandFits(env.Bindings(), command)
    modifies env, env.vars
    ensures env.Valid() && env.vars == old(env.vars)
    ensures action == Classify(Tokens(command, ' '))
    ensures env.Bindings() == Effect(old(env.Bindings()), action)
  {
    var args := Tokenize(command, ' ');
    if |args| == 0 {
      return Nothing;
    }
    if args[0] == "cd" {
      action := Cd(if |args| >= 2 then Some(args[1]) else None);
    } else if args[0] == "pwd" {
      action := Pwd;
    } else if args[0] == "set" {
      if |args| >= 3 {
        env.Set(args[1], args[2]);
        action := SetVar(args[1], args[2]);
      } else {
        action := SetUsage;
      }
    } else if args[0] == "unset" {
      if |args| >= 2 {
        env.Unset(args[1]);
        action := UnsetVar(args[1]);
      } else {
        action := UnsetUsage;
      }
    } else {
      action := External(args);
    }
  }
}
