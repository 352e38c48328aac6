/**
 * `DefaultApplicationArguments`: the arguments an application was started
 * with, parsed once when the object is built and then only read.
 */
module ApplicationArguments {
  import opened Wrappers
  import opened CommandLine

  /** The message a missing (null) argument array is rejected with. */
  const NullArgsMessage := "Args must not be null"

  class DefaultApplicationArguments {
    /** The tokens as given. */
    const sourceArgs: seq<string>
    /** Option name to the values seen for it. */
    const optionValues: map<string, seq<string>>
    /** The non-option tokens. */
    const nonOptionArgs: seq<string>

    /** The two collections are what a pass over `sourceArgs` builds. */
    ghost predicate Valid() {
      AllSupported(sourceArgs) && Parse(sourceArgs) == Parsed(optionValues, nonOptionArgs)
    }

    /**
     * One pass over the tokens, adding to an option map or to a non-option
     * list; the object is fixed from then on.
     */
    constructor (args: seq<string>)
      requires AllSupported(args)
      ensures Valid() && sourceArgs == args
    {
      var options: map<string, seq<string>> := map[];
      var nonOptions: seq<string> := [];
      var i := 0;
      while i < |args|
        invariant 0 <= i <= |args|
        invariant AllSupported(args[..i])
        invariant Parse(args[..i]) == Parsed(options, nonOptions)
      {
        var t := args[i];
        assert args[..i + 1] == args[..i] + [t];
        assert args[..i + 1][..i] == args[..i];
        PrefixSupported(args, i + 1);
        assert Parse(args[..i + 1]) == Step(Parse(args[..i]), t);
        if IsOption(t) {
          var a := ParseOption(t);
          var seen := if a.name in options then options[a.name] else [];
          match a.value {
            case None =>
              options := options[a.name := seen];
            case Some(v) =>
              options := options[a.name := seen + [v]];
          }
        } else {
          nonOptions := nonOptions + [t];
        }
        i := i + 1;
      }
      assert args[..|args|] == args;
      sourceArgs := args;
      optionValues := options;
      nonOptionArgs := nonOptions;
    }

    /** The tokens exactly as they were given. */
    function GetSourceArgs(): (r: seq<string>)
      requires Valid()
      ensures r == sourceArgs
      ensures multiset(r) == multiset(GetNonOptionArgs()) + multiset(OptionTokens(r))
    {
      Partition(sourceArgs);
      sourceArgs
    }

    /** The names of all option arguments, each once. */
    function GetOptionNames(): (r: set<string>)
      requires Valid()
      ensures r == OptionNames(sourceArgs)
    {
      ParseNames(sourceArgs);
      optionValues.Keys
    }

    /** Whether some option token carries `name`; a flag without a value counts. */
    function ContainsOption(name: string): (b: bool)
      requires Valid()
      ensures b <==> exists i :: 0 <= i < |sourceArgs| && IsOption(sourceArgs[i]) &&
                                 ParseOption(sourceArgs[i]).name == name
    {
      ParseNames(sourceArgs);
      name in optionValues
    }

    /**
     * The values of option `name` in order of appearance, empty for a flag
     * given without a value, and `None` (Java's null) for a name never seen.
     */
    function GetOptionValues(name: string): (r: Option<seq<string>>)
      requires Valid()
      ensures r.Some? <==> name in OptionNames(sourceArgs)
      ensures r.Some? ==> r.value == ValuesFor(sourceArgs, name)
    {
      ParseNames(sourceArgs);
      if name in optionValues then
        ParseValues(sourceArgs, name);
        Some(optionValues[name])
      else None
    }

    /** The non-option tokens in input order. */
    function GetNonOptionArgs(): (r: seq<string>)
      requires Valid()
      ensures r == NonOptions(sourceArgs)
    {
      ParseNonOptions(sourceArgs);
      nonOptionArgs
    }
  }

  /** Builds the arguments, rejecting a missing argument array before any parsing. */
  method New(args: Option<seq<string>>) returns (r: Result<DefaultApplicationArguments, string>)
    requires args.Some? ==> AllSupported(args.value)
    ensures r.Failure? <==> args.None?
    ensures r.Failure? ==> r.error == NullArgsMessage
    ensures r.Success? ==> fresh(r.value) && r.value.Valid() && r.value.GetSourceArgs() == args.value
  {
    if args.None? {
      return Failure(NullArgsMessage);
    }
    var a := new DefaultApplicationArguments(args.value);
    return Success(a);
  }
}
