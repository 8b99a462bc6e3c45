/** The command-line tokeniser: `--name` and translated `-c` tokens become
    keys, each taking the next token as its value unless that token starts
    with '-', in which case the key is a flag. A later occurrence of a key
    replaces an earlier one. */
module CliUtils {
  import opened Wrappers
  import opened Errors
  import opened Strings

  /** What the map holds for a key: Boolean.TRUE for a flag, or the token
      after the key. */
  datatype ArgValue = Flag | Value(text: string)

  /** The key token `a` names, if any. A lone "-" has no character after the
      dash, so reading it fails; an untranslated short key names nothing. */
  function KeyAt(args: seq<string>, trans: map<char, string>, a: nat): (r: Result<Option<string>, Error>)
    requires a < |args|
    ensures r.Failure? <==> args[a] == "-"
    ensures r.Failure? ==> r.error == IndexOutOfBounds
    ensures r.Success? && r.value.Some? ==> StartsWith(args[a], "-")
    ensures StartsWith(args[a], "--") ==> r == Success(Some(args[a][2..]))
    ensures StartsWith(args[a], "-") && !StartsWith(args[a], "--") && |args[a]| >= 2 && args[a][1] in trans ==>
              r == Success(Some(trans[args[a][1]]))
    ensures r == Success(None) <==>
              !StartsWith(args[a], "-") ||
              (!StartsWith(args[a], "--") && |args[a]| >= 2 && args[a][1] !in trans)
  {
    var token := args[a];
    if StartsWith(token, "--") then Success(Some(token[2..]))
    else if StartsWith(token, "-") then
      if |token| < 2 then Failure(IndexOutOfBounds)
      else if token[1] in trans then Success(Some(trans[token[1]]))
      else Success(None)
    else Success(None)
  }

  /** The value stored for a key at position `a`. */
  function ValueAt(args: seq<string>, a: nat): (v: ArgValue)
    requires a < |args|
    ensures v.Value? <==> a + 1 < |args| && !StartsWith(args[a + 1], "-")
    ensures v.Value? ==> v.text == args[a + 1]
  {
    if a < |args| - 1 && !StartsWith(args[a + 1], "-") then Value(args[a + 1]) else Flag
  }

  /** The map after loading the first `n` tokens. */
  function Loaded(args: seq<string>, trans: map<char, string>, n: nat): Result<map<string, ArgValue>, Error>
    requires n <= |args|
    decreases n
  {
    if n == 0 then Success(map[])
    else
      var m :- Loaded(args, trans, n - 1);
      var key :- KeyAt(args, trans, n - 1);
      if key.Some? then Success(m[key.value := ValueAt(args, n - 1)]) else Success(m)
  }

  /** Token `a` names `name` and no later token among the first `n` does. */
  ghost predicate IsLastKey(args: seq<string>, trans: map<char, string>, name: string, a: nat, n: nat) {
    a < n <= |args| && KeyAt(args, trans, a) == Success(Some(name)) &&
    forall b :: a < b < n ==> KeyAt(args, trans, b) != Success(Some(name))
  }

  /** Loading fails exactly when a lone "-" occurs. */
  lemma {:induction false} LoadedFailsIff(args: seq<string>, trans: map<char, string>, n: nat)
    requires n <= |args|
    ensures Loaded(args, trans, n).Failure? <==> exists a :: 0 <= a < n && args[a] == "-"
    ensures Loaded(args, trans, n).Failure? ==> Loaded(args, trans, n).error == IndexOutOfBounds
    decreases n
  {
    if n > 0 {
      LoadedFailsIff(args, trans, n - 1);
    }
  }

  /** A key is in the map exactly when some token names it. */
  lemma {:induction false} LoadedKeys(args: seq<string>, trans: map<char, string>, n: nat, name: string)
    requires n <= |args|
    requires Loaded(args, trans, n).Success?
    ensures name in Loaded(args, trans, n).value <==>
            exists a :: 0 <= a < n && KeyAt(args, trans, a) == Success(Some(name))
    decreases n
  {
    if n > 0 {
      LoadedKeys(args, trans, n - 1, name);
    }
  }

  /** The value kept for a key is the one its last occurrence set. */
  lemma {:induction false} LoadedLastWins(args: seq<string>, trans: map<char, string>, n: nat, name: string)
    requires n <= |args|
    requires Loaded(args, trans, n).Success?
    requires name in Loaded(args, trans, n).value
    ensures exists a :: IsLastKey(args, trans, name, a, n) &&
                        Loaded(args, trans, n).value[name] == ValueAt(args, a)
    decreases n
  {
    var key := KeyAt(args, trans, n - 1).value;
    if key == Some(name) {
      assert IsLastKey(args, trans, name, n - 1, n);
    } else {
      LoadedLastWins(args, trans, n - 1, name);
      var a :| IsLastKey(args, trans, name, a, n - 1) &&
               Loaded(args, trans, n - 1).value[name] == ValueAt(args, a);
      assert IsLastKey(args, trans, name, a, n);
    }
  }

  /** A token taken as a value never names a key itself. */
  lemma ValueIsNotKey(args: seq<string>, trans: map<char, string>, a: nat)
    requires a < |args|
    requires ValueAt(args, a).Value?
    ensures KeyAt(args, trans, a + 1) == Success(None)
  {
  }

  class CliArgs {
    var rawArgs: seq<string>
    var argsMap: map<string, ArgValue>
    var argsTrans: map<char, string>

    ghost predicate Valid()
      reads this
    {
      Loaded(rawArgs, argsTrans, |rawArgs|) == Success(argsMap)
    }

    /** The field setup of `init`, before loadArgs: the arguments copied and
        an empty map. */
    constructor (args: seq<string>, trans: map<char, string>)
      ensures rawArgs == args && argsTrans == trans && argsMap == map[]
    {
      rawArgs := args;
      argsTrans := trans;
      argsMap := map[];
    }

    /** CliArgs(args, argsTrans): the constructor throws when loadArgs does. */
    static method Create(args: seq<string>, trans: map<char, string>) returns (r: Result<CliArgs, Error>)
      ensures r.Failure? <==> exists a :: 0 <= a < |args| && args[a] == "-"
      ensures r.Failure? ==> r.error == IndexOutOfBounds
      ensures r.Success? ==>
                fresh(r.value) && r.value.Valid() && r.value.rawArgs == args && r.value.argsTrans == trans
    {
      var c := new CliArgs(args, trans);
      LoadedFailsIff(args, trans, |args|);
      var loaded := c.LoadArgs();
      if loaded.Fail? {
        return Failure(loaded.error);
      }
      return Success(c);
    }

    /** CliArgs(args): no short-key translations. */
    static method CreateWithoutTranslations(args: seq<string>) returns (r: Result<CliArgs, Error>)
      ensures r.Failure? <==> exists a :: 0 <= a < |args| && args[a] == "-"
      ensures r.Failure? ==> r.error == IndexOutOfBounds
      ensures r.Success? ==>
                fresh(r.value) && r.value.Valid() && r.value.rawArgs == args && r.value.argsTrans == map[]
    {
      r := Create(args, map[]);
    }

    /** loadArgs: one pass over the tokens, storing each key's value. */
    method LoadArgs() returns (r: Outcome<Error>)
      requires argsMap == map[]
      modifies this`argsMap
      ensures r.Pass? <==> Loaded(rawArgs, argsTrans, |rawArgs|).Success?
      ensures r.Pass? ==> Valid()
      ensures r.Fail? ==> Loaded(rawArgs, argsTrans, |rawArgs|) == Failure(r.error)
    {
      var a := 0;
      while a < |rawArgs|
        invariant 0 <= a <= |rawArgs|
        invariant Loaded(rawArgs, argsTrans, a) == Success(argsMap)
      {
        var token := rawArgs[a];
        var argName: Option<string> := None;
        if StartsWith(token, "--") {
          argName := Some(token[2..]);
        } else if StartsWith(token, "-") {
          if |token| < 2 {
            LoadedStopsAt(rawArgs, argsTrans, a, |rawArgs|);
            return Fail(IndexOutOfBounds);
          }
          if token[1] in argsTrans {
            argName := Some(argsTrans[token[1]]);
          }
        }
        if argName.Some? {
          if a < |rawArgs| - 1 && !StartsWith(rawArgs[a + 1], "-") {
            argsMap := argsMap[argName.value := Value(rawArgs[a + 1])];
          } else {
            argsMap := argsMap[argName.value := Flag];
          }
        }
        a := a + 1;
      }
      return Pass;
    }

    /** hasArg(String). */
    function HasArg(name: string): (b: bool)
      reads this
      requires Valid()
      ensures b <==> exists a :: 0 <= a < |rawArgs| && KeyAt(rawArgs, argsTrans, a) == Success(Some(name))
    {
      LoadedKeys(rawArgs, argsTrans, |rawArgs|, name);
      name in argsMap
    }

    /** hasArg(char): only a translated character can be present, and then
        exactly when its long name is. */
    function HasShortArg(c: char): (b: bool)
      reads this
      requires Valid()
      ensures c !in argsTrans ==> !b
      ensures c in argsTrans ==> (b <==> HasArg(argsTrans[c]))
    {
      if c in argsTrans then argsTrans[c] in argsMap else false
    }

    /** getValue: null for an absent key, else the value of its last
        occurrence. */
    function GetValue(name: string): (v: Option<ArgValue>)
      reads this
      requires Valid()
      ensures v.Some? <==> HasArg(name)
      ensures v.Some? ==> exists a :: IsLastKey(rawArgs, argsTrans, name, a, |rawArgs|) &&
                                     v.value == ValueAt(rawArgs, a)
    {
      if name in argsMap then
        LoadedLastWins(rawArgs, argsTrans, |rawArgs|, name);
        Some(argsMap[name])
      else None
    }
  }

  /** Once loading the first `a + 1` tokens fails, loading more fails the
      same way. */
  lemma {:induction false} LoadedStopsAt(args: seq<string>, trans: map<char, string>, a: nat, n: nat)
    requires a < n <= |args|
    requires Loaded(args, trans, a).Success? && args[a] == "-"
    ensures Loaded(args, trans, n) == Failure(IndexOutOfBounds)
    decreases n
  {
    if n > a + 1 {
      LoadedStopsAt(args, trans, a, n - 1);
    }
  }
}
