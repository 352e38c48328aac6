/**
 * The behaviour the unit tests of `DefaultApplicationArguments` pin down,
 * stated for the fixture `ARGS` and for a flag-only input.
 */
module ArgumentsTests {
  import opened Wrappers
  import opened CommandLine
  import opened ApplicationArguments

  const ARGS: seq<string> := ["--foo=bar", "--foo=baz", "--debug", "spring", "boot"]

  /** `--foo=bar` is option `foo` with value `bar`. */
  lemma FooBar()
    ensures IsOption(ARGS[0]) && ParseOption(ARGS[0]) == OptionArg("foo", Some("bar"))
    ensures Supported(ARGS[0])
  {
    ParseRender(OptionArg("foo", Some("bar")));
    assert Render(OptionArg("foo", Some("bar"))) == ARGS[0];
  }

  /** `--foo=baz` is option `foo` with value `baz`. */
  lemma FooBaz()
    ensures IsOption(ARGS[1]) && ParseOption(ARGS[1]) == OptionArg("foo", Some("baz"))
    ensures Supported(ARGS[1])
  {
    ParseRender(OptionArg("foo", Some("baz")));
    assert Render(OptionArg("foo", Some("baz"))) == ARGS[1];
  }

  /** `--debug` is the flag `debug`. */
  lemma Debug()
    ensures IsOption(ARGS[2]) && ParseOption(ARGS[2]) == OptionArg("debug", None)
    ensures Supported(ARGS[2])
  {
    ParseRender(OptionArg("debug", None));
    assert Render(OptionArg("debug", None)) == ARGS[2];
  }

  /** Three option tokens followed by two non-option tokens, as in the fixture. */
  ghost predicate Layout(args: seq<string>) {
    && |args| == 5
    && IsOption(args[0]) && IsOption(args[1]) && IsOption(args[2])
    && !IsOption(args[3]) && !IsOption(args[4])
  }

  lemma FixtureLayout()
    ensures Layout(ARGS)
  {
  }

  /** Every fixture token is one whose meaning the model fixes. */
  lemma FixtureSupported()
    ensures AllSupported(ARGS)
  {
    forall i | 0 <= i < |ARGS| ensures Supported(ARGS[i]) {
      if i == 0 { FooBar(); } else if i == 1 { FooBaz(); } else if i == 2 { Debug(); }
    }
  }

  /** A null argument array is rejected with its message. */
  method ArgumentsMustNotBeNull() returns (r: Result<DefaultApplicationArguments, string>)
    ensures r == Failure("Args must not be null")
  {
    r := New(None);
  }

  /** The fixture arguments can be built, and give back the tokens unchanged. */
  method GetArgs() returns (a: DefaultApplicationArguments)
    ensures a.Valid() && a.GetSourceArgs() == ARGS
  {
    FixtureSupported();
    var r := New(Some(ARGS));
    a := r.value;
  }

  /** The names carried by an input laid out as the fixture: those of its first three tokens. */
  lemma LayoutNames(args: seq<string>)
    requires Layout(args)
    ensures OptionNames(args) ==
            {ParseOption(args[0]).name, ParseOption(args[1]).name, ParseOption(args[2]).name}
  {
    forall x | x in OptionNames(args)
      ensures x in {ParseOption(args[0]).name, ParseOption(args[1]).name, ParseOption(args[2]).name}
    {
      var i :| 0 <= i < |args| && IsOption(args[i]) && ParseOption(args[i]).name == x;
      assert i < 3;
    }
  }

  /** The values given in an input laid out as the fixture: those of its first three tokens. */
  lemma LayoutValues(args: seq<string>, name: string)
    requires Layout(args)
    ensures ValuesFor(args, name) ==
            ValueOf(args[0], name) + ValueOf(args[1], name) + ValueOf(args[2], name)
  {
    assert args == [args[0]] + args[1..];
    assert args[1..] == [args[1]] + args[2..];
    assert args[2..] == [args[2]] + args[3..];
    assert args[3..] == [args[3]] + args[4..];
    assert args[4..] == [args[4]] + [];
    ValuesForCons(args[4], [], name);
    ValuesForCons(args[3], args[4..], name);
    ValuesForCons(args[2], args[3..], name);
    ValuesForCons(args[1], args[2..], name);
    ValuesForCons(args[0], args[1..], name);
  }

  /** The non-option arguments of an input laid out as the fixture: its last two tokens. */
  lemma LayoutNonOptions(args: seq<string>)
    requires Layout(args)
    ensures NonOptions(args) == [args[3], args[4]]
  {
    assert args == [args[0]] + args[1..];
    assert args[1..] == [args[1]] + args[2..];
    assert args[2..] == [args[2]] + args[3..];
    assert args[3..] == [args[3]] + args[4..];
    assert args[4..] == [args[4]] + [];
    NonOptionsCons(args[4], []);
    NonOptionsCons(args[3], args[4..]);
    NonOptionsCons(args[2], args[3..]);
    NonOptionsCons(args[1], args[2..]);
    NonOptionsCons(args[0], args[1..]);
  }

  /** The option names of the fixture. */
  lemma FixtureNames()
    ensures OptionNames(ARGS) == {"foo", "debug"}
  {
    FixtureLayout();
    LayoutNames(ARGS);
    FooBar();
    FooBaz();
    Debug();
  }

  /** The values the fixture gives `foo`. */
  lemma FooValues()
    ensures ValuesFor(ARGS, "foo") == ["bar", "baz"]
  {
    FixtureLayout();
    LayoutValues(ARGS, "foo");
    FooBar();
    FooBaz();
    Debug();
  }

  /** The fixture gives the flag `debug` no value. */
  lemma DebugValues()
    ensures ValuesFor(ARGS, "debug") == []
  {
    FixtureLayout();
    LayoutValues(ARGS, "debug");
    FooBar();
    FooBaz();
    Debug();
  }

  lemma OptionNamesOfFixture(a: DefaultApplicationArguments)
    requires a.Valid() && a.sourceArgs == ARGS
    ensures a.GetOptionNames() == {"foo", "debug"}
  {
    FixtureNames();
  }

  lemma ContainsOptionOfFixture(a: DefaultApplicationArguments)
    requires a.Valid() && a.sourceArgs == ARGS
    ensures a.ContainsOption("foo")
    ensures a.ContainsOption("debug")
    ensures !a.ContainsOption("spring")
  {
    FixtureNames();
    assert "foo" in OptionNames(a.sourceArgs) && "debug" in OptionNames(a.sourceArgs);
    assert "spring" !in OptionNames(a.sourceArgs);
  }

  lemma OptionValuesOfFixture(a: DefaultApplicationArguments)
    requires a.Valid() && a.sourceArgs == ARGS
    ensures a.GetOptionValues("foo") == Some(["bar", "baz"])
    ensures a.GetOptionValues("debug") == Some([])
    ensures a.GetOptionValues("spring") == None
  {
    FixtureNames();
    assert "foo" in OptionNames(a.sourceArgs) && "debug" in OptionNames(a.sourceArgs);
    assert "spring" !in OptionNames(a.sourceArgs);
    FooValues();
    DebugValues();
  }

  lemma NonOptionArgsOfFixture(a: DefaultApplicationArguments)
    requires a.Valid() && a.sourceArgs == ARGS
    ensures a.GetNonOptionArgs() == ["spring", "boot"]
  {
    FixtureLayout();
    LayoutNonOptions(ARGS);
  }

  lemma NoNonOptionArgs(a: DefaultApplicationArguments)
    requires a.Valid() && a.sourceArgs == ["--debug"]
    ensures a.GetNonOptionArgs() == []
  {
    var flag := ["--debug"];
    assert IsOption(flag[0]);
    OnlyOptions(flag);
  }
}
