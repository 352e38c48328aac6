# DefaultApplicationArguments, modelled in Dafny

`DefaultApplicationArguments` holds the command-line arguments an application
was started with. It is built once from the token array. A token that starts
with `--` is an option argument, either `--name=value` or the bare flag
`--name`. Every other token is a non-option argument. After construction the
object only answers queries: the source tokens, the option names, whether an
option is present, the values of an option, and the non-option arguments.

This model is built from the behaviour that the unit test suite
`spring-boot/src/test/java/org/springframework/boot/DefaultApplicationArgumentsTests.java`
pins down. The implementation class `DefaultApplicationArguments.java` and the
parser it delegates to are not modelled. The model states that behaviour for
every input whose option tokens are well formed (see "## Left out").

Files:

- `Wrappers.dfy`: `Option` (where Java returns `null`) and `Result` (where the constructor throws).
- `CommandLine.dfy`: the token syntax (`IsOption`, `ParseOption`, and `ParseOptionSplit` for how a
  token splits). Also a pure function
  `Parse` that follows a left-to-right pass over the tokens and builds the option map and the
  non-option list. It also holds reference definitions stated directly on the
  tokens (`OptionNames`, `ValuesFor`, `NonOptions`, `OptionTokens`) and lemmas that connect them to `Parse`.
- `ApplicationArguments.dfy`: the class `DefaultApplicationArguments`. Its constructor loops
  over the tokens, adding to an option map and to a non-option list, and then stores them in
  `const` fields, so the object does not change after construction. The queries are functions
  over those fields. `New` adds the null check.
- `ArgumentsTests.dfy`: one lemma or method for each test case. All but `ArgumentsMustNotBeNull`
  (a missing array) and `NoNonOptionArgs` (`["--debug"]`) are stated for the fixture `ARGS`. `FooBar`, `FooBaz` and `Debug` split
  the fixture's option tokens. Helper lemmas work the fixture out from those: `FixtureLayout`,
  `FixtureSupported`, `LayoutNames`, `LayoutValues`, `LayoutNonOptions`, `FixtureNames`,
  `FooValues` and `DebugValues`.

## Model

| member | source | states |
|---|---|---|
| `ApplicationArguments.New` | spring-boot/src/test/java/org/springframework/boot/DefaultApplicationArgumentsTests.java:45-49 | a missing (null) argument array fails with exactly "Args must not be null", and only then; otherwise the result is a fresh, valid object whose source args are the input |
| `ApplicationArguments.DefaultApplicationArguments.constructor` | spring-boot/src/test/java/org/springframework/boot/DefaultApplicationArgumentsTests.java:52-55 | after one pass over the tokens, the stored option map and non-option list are the ones `Parse` describes, and the source args are the input |
| `ApplicationArguments.DefaultApplicationArguments.GetSourceArgs` | spring-boot/src/test/java/org/springframework/boot/DefaultApplicationArgumentsTests.java:52-55 | returns the tokens exactly as given, and they are, as a multiset, the non-option args plus the option tokens |
| `ApplicationArguments.DefaultApplicationArguments.GetOptionNames` | spring-boot/src/test/java/org/springframework/boot/DefaultApplicationArgumentsTests.java:58-62 | the set of names carried by the `--` tokens, each once, and nothing else |
| `ApplicationArguments.DefaultApplicationArguments.ContainsOption` | spring-boot/src/test/java/org/springframework/boot/DefaultApplicationArgumentsTests.java:65-70 | true if and only if some option token carries the name, including a flag without a value |
| `ApplicationArguments.DefaultApplicationArguments.GetOptionValues` | spring-boot/src/test/java/org/springframework/boot/DefaultApplicationArgumentsTests.java:73-79 | present exactly for names some option token carries. When present, the list holds that name's values in order of appearance. A name never seen gives `None` |
| `ApplicationArguments.DefaultApplicationArguments.GetNonOptionArgs` | spring-boot/src/test/java/org/springframework/boot/DefaultApplicationArgumentsTests.java:82-85 | exactly the tokens without the `--` prefix, in input order |
| `CommandLine.ParseOptionSplit` | spring-boot/src/test/java/org/springframework/boot/DefaultApplicationArgumentsTests.java:38-39 | an option token splits at its first `=`: the name contains no `=`. The value is absent exactly when the token has no `=`. Writing the parts back gives the token |
| `CommandLine.ParseRender` | spring-boot/src/test/java/org/springframework/boot/DefaultApplicationArgumentsTests.java:38-39 | round trip: parsing `--name` or `--name=value` (name without `=`) gives back that name and value |
| `CommandLine.ParseNames` | spring-boot/src/test/java/org/springframework/boot/DefaultApplicationArgumentsTests.java:58-62 | the keys of the option map are exactly the names carried by option tokens |
| `CommandLine.ParseValues` | spring-boot/src/test/java/org/springframework/boot/DefaultApplicationArgumentsTests.java:73-75 | each collected name maps to the values given for it, in order of appearance |
| `CommandLine.ParseNonOptions` | spring-boot/src/test/java/org/springframework/boot/DefaultApplicationArgumentsTests.java:82-85 | the non-option list is the input filtered to the tokens that are not options, in order |
| `CommandLine.Partition` | spring-boot/src/test/java/org/springframework/boot/DefaultApplicationArgumentsTests.java:38-39 | every token goes to exactly one output. The non-option list and the option tokens together make up the input as a multiset, and their lengths add up to its length |
| `CommandLine.TokenClassified` | spring-boot/src/test/java/org/springframework/boot/DefaultApplicationArgumentsTests.java:65-70 | an option token's name is collected, and a non-option token is in the non-option list |
| `CommandLine.NonOptionPosition` | spring-boot/src/test/java/org/springframework/boot/DefaultApplicationArgumentsTests.java:82-85 | order is preserved: the non-option token at input position `i` sits in the non-option list directly after the non-option tokens that come before `i` |
| `CommandLine.OnlyOptions` | spring-boot/src/test/java/org/springframework/boot/DefaultApplicationArgumentsTests.java:88-93 | an input made only of option tokens gives an empty non-option list |
| `CommandLine.FlagVersusAbsent` | spring-boot/src/test/java/org/springframework/boot/DefaultApplicationArgumentsTests.java:76-78 | a flag seen only without values is present with an empty list; a name no option token carries is absent; these are distinct outcomes |
| `CommandLine.AppendOption` | spring-boot/src/test/java/org/springframework/boot/DefaultApplicationArgumentsTests.java:73-75 | one more `--name=value` token appends `value` to the values given for `name`; a flag adds no value but adds its name. The values of other names and the non-option arguments are unchanged |
| `ArgumentsTests.FooBar` | spring-boot/src/test/java/org/springframework/boot/DefaultApplicationArgumentsTests.java:38-39 | the fixture token `--foo=bar` is option `foo` with value `bar`, and its meaning is fixed by the model |
| `ArgumentsTests.FooBaz` | spring-boot/src/test/java/org/springframework/boot/DefaultApplicationArgumentsTests.java:38-39 | the fixture token `--foo=baz` is option `foo` with value `baz`, and its meaning is fixed by the model |
| `ArgumentsTests.Debug` | spring-boot/src/test/java/org/springframework/boot/DefaultApplicationArgumentsTests.java:38-39 | the fixture token `--debug` is the flag `debug` without a value |
| `ArgumentsTests.ArgumentsMustNotBeNull` | spring-boot/src/test/java/org/springframework/boot/DefaultApplicationArgumentsTests.java:45-49 | building from null fails with "Args must not be null" |
| `ArgumentsTests.GetArgs` | spring-boot/src/test/java/org/springframework/boot/DefaultApplicationArgumentsTests.java:52-55 | building from `ARGS` gives back `ARGS` as the source args |
| `ArgumentsTests.OptionNamesOfFixture` | spring-boot/src/test/java/org/springframework/boot/DefaultApplicationArgumentsTests.java:58-62 | the option names of `ARGS` are `{"foo", "debug"}` |
| `ArgumentsTests.ContainsOptionOfFixture` | spring-boot/src/test/java/org/springframework/boot/DefaultApplicationArgumentsTests.java:65-70 | `foo` and `debug` are options of `ARGS`; `spring` is not |
| `ArgumentsTests.OptionValuesOfFixture` | spring-boot/src/test/java/org/springframework/boot/DefaultApplicationArgumentsTests.java:73-79 | `foo` has `["bar", "baz"]`, `debug` has `[]`, `spring` has `None` |
| `ArgumentsTests.NonOptionArgsOfFixture` | spring-boot/src/test/java/org/springframework/boot/DefaultApplicationArgumentsTests.java:82-85 | the non-option args of `ARGS` are `["spring", "boot"]` |
| `ArgumentsTests.NoNonOptionArgs` | spring-boot/src/test/java/org/springframework/boot/DefaultApplicationArgumentsTests.java:88-93 | `["--debug"]` has no non-option args |

## Left out

- Malformed option syntax is left undetermined. This covers a bare `--`, `--=value`, `--name=` with an empty
  value, and a further `=` inside an option's value. The test suite does not fix these cases, so
  `Supported`/`AllSupported` exclude them through a precondition on `Parse`, on the constructor and on `New`.
  So the model does not say whether such tokens are accepted or rejected.
- Java collection details (`HashSet`, unmodifiable list wrappers, array identity as opposed to
  content equality) become Dafny value types: `set`, `seq`, `map`.
- The test harness (JUnit `ExpectedException` rule, Hamcrest matchers) and the Java exception
  type: only the failure and its message are modelled.
- Exposure of the arguments as a property source, and the wider application context: not part
  of this model.
- Idempotence of repeated queries is not a separate lemma: the queries are functions of
  `const` fields, which nothing can change after construction.
