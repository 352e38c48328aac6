/**
 * The command-line syntax that `DefaultApplicationArguments` understands.
 *
 * A token that starts with `--` is an option argument, `--name=value` or the
 * bare flag `--name`; every other token is a non-option argument.  `Parse`
 * states, as a pure function of the token sequence, what a single left-to-right
 * pass over the tokens builds: a map from option name to the values seen for
 * it, and the list of non-option arguments.  The reference definitions below
 * (`OptionNames`, `ValuesFor`, `NonOptions`, `OptionTokens`) say the same
 * things directly about the input, without a map, and the lemmas connect them.
 */
module CommandLine {
  import opened Wrappers

  /** An option token split into its name and, if it has one, its value. */
  datatype OptionArg = OptionArg(name: string, value: Option<string>)

  /** The parser's state after some prefix of the tokens. */
  datatype Parsed = Parsed(options: map<string, seq<string>>, nonOptions: seq<string>)

  /** The classification of a token: it depends on its own text only. */
  predicate IsOption(t: string) {
    |t| >= 2 && t[0] == '-' && t[1] == '-'
  }

  /** An option token without its `--` prefix. */
  function OptionText(t: string): (body: string)
    requires IsOption(t)
    ensures t == "--" + body
  {
    t[2..]
  }

  /** The position of the first `c` in `s`, or `None` when `s` has no `c`. */
  function IndexOf(s: string, c: char): (r: Option<nat>)
    ensures r.None? ==> c !in s
    ensures r.Some? ==> r.value < |s| && s[r.value] == c && c !in s[..r.value]
  {
    if s == [] then None
    else if s[0] == c then Some(0)
    else match IndexOf(s[1..], c)
      case None => None
      case Some(k) =>
        assert s[..k + 1] == [s[0]] + s[1..][..k];
        Some(k + 1)
  }

  /** The text an option argument is written as on the command line. */
  function Render(a: OptionArg): (t: string) {
    "--" + a.name + (match a.value case None => "" case Some(v) => "=" + v)
  }

  /**
   * Splits an option token at the first `=`: what comes before it is the
   * name and what comes after it is the value; without `=` the whole text
   * after `--` is the name of a flag.
   */
  function ParseOption(t: string): (a: OptionArg)
    requires IsOption(t)
  {
    var body := OptionText(t);
    match IndexOf(body, '=')
    case None => OptionArg(body, None)
    case Some(i) => OptionArg(body[..i], Some(body[i + 1..]))
  }

  /**
   * `ParseOption` splits at the first `=`: the name holds no `=`, the value
   * is absent exactly when the token has no `=`, and writing the two parts
   * back gives the token.
   */
  lemma ParseOptionSplit(t: string)
    requires IsOption(t)
    ensures '=' !in ParseOption(t).name
    ensures ParseOption(t).value.None? <==> '=' !in OptionText(t)
    ensures Render(ParseOption(t)) == t
  {
    var body := OptionText(t);
    match IndexOf(body, '=')
    case None =>
    case Some(i) =>
      assert body == body[..i] + "=" + body[i + 1..];
  }

  /**
   * The tokens whose meaning this model fixes: every non-option token, and
   * option tokens with a non-empty name and, when `=` is present, a
   * non-empty value without a further `=`.
   */
  predicate Supported(t: string) {
    !IsOption(t) ||
    (var a := ParseOption(t);
     a.name != "" && (a.value.Some? ==> a.value.value != "" && '=' !in a.value.value))
  }

  predicate AllSupported(args: seq<string>) {
    forall i :: 0 <= i < |args| ==> Supported(args[i])
  }

  /** The first `c` in `u + [c] + w`, when `u` has none, is the one after `u`. */
  lemma IndexOfAfter(u: string, c: char, w: string)
    requires c !in u
    ensures IndexOf(u + [c] + w, c) == Some(|u|)
  {
    var s := u + [c] + w;
    assert s[|u|] == c;
  }

  /** Parsing a rendered option argument gives that argument back. */
  lemma ParseRender(a: OptionArg)
    requires '=' !in a.name
    ensures IsOption(Render(a)) && ParseOption(Render(a)) == a
  {
    var t := Render(a);
    match a.value
    case None =>
      assert t == "--" + a.name;
      assert OptionText(t) == a.name;
    case Some(v) =>
      var body := a.name + "=" + v;
      assert t == "--" + body;
      assert OptionText(t) == body;
      IndexOfAfter(a.name, '=', v);
      assert body[..|a.name|] == a.name;
      assert body[|a.name| + 1..] == v;
  }

  /** What one token adds to the parser's state. */
  function Step(p: Parsed, t: string): (q: Parsed)
    requires Supported(t)
  {
    if IsOption(t) then
      var a := ParseOption(t);
      var seen := if a.name in p.options then p.options[a.name] else [];
      var values := match a.value case None => seen case Some(v) => seen + [v];
      Parsed(p.options[a.name := values], p.nonOptions)
    else
      Parsed(p.options, p.nonOptions + [t])
  }

  /** The state after a left-to-right pass over all of `args`. */
  function Parse(args: seq<string>): (p: Parsed)
    requires AllSupported(args)
  {
    if args == [] then Parsed(map[], [])
    else Step(Parse(args[..|args| - 1]), args[|args| - 1])
  }

  // ---------------------------------------------------------------------
  // Reference definitions, stated directly on the tokens.

  /** The elements of `s` that satisfy `keep`, in their order in `s`. */
  function Filter<T>(keep: T -> bool, s: seq<T>): (r: seq<T>)
    ensures forall x :: x in r ==> x in s && keep(x)
  {
    if s == [] then []
    else (if keep(s[0]) then [s[0]] else []) + Filter(keep, s[1..])
  }

  /** The non-option arguments of `args`, in input order. */
  function NonOptions(args: seq<string>): (ts: seq<string>) {
    Filter((t: string) => !IsOption(t), args)
  }

  /** The option tokens of `args`, in input order. */
  function OptionTokens(args: seq<string>): (ts: seq<string>) {
    Filter(IsOption, args)
  }

  /** Every name that some option token of `args` carries. */
  function OptionNames(args: seq<string>): (names: set<string>) {
    set i | 0 <= i < |args| && IsOption(args[i]) :: ParseOption(args[i]).name
  }

  /** The value token `t` gives option `name`, if any. */
  function ValueOf(t: string, name: string): (vs: seq<string>) {
    if IsOption(t) && ParseOption(t).name == name && ParseOption(t).value.Some?
    then [ParseOption(t).value.value]
    else []
  }

  /** The values given to option `name` in `args`, in order of appearance. */
  function ValuesFor(args: seq<string>, name: string): (vs: seq<string>) {
    if args == [] then [] else ValueOf(args[0], name) + ValuesFor(args[1..], name)
  }

  // ---------------------------------------------------------------------
  // Lemmas about the reference definitions.

  lemma {:induction false} FilterAppend<T>(keep: T -> bool, a: seq<T>, b: seq<T>)
    ensures Filter(keep, a + b) == Filter(keep, a) + Filter(keep, b)
  {
    if a == [] {
      assert a + b == b;
    } else {
      assert (a + b)[1..] == a[1..] + b;
      FilterAppend(keep, a[1..], b);
    }
  }

  lemma {:induction false} ValuesForAppend(a: seq<string>, b: seq<string>, name: string)
    ensures ValuesFor(a + b, name) == ValuesFor(a, name) + ValuesFor(b, name)
  {
    if a == [] {
      assert a + b == b;
    } else {
      assert (a + b)[1..] == a[1..] + b;
      ValuesForAppend(a[1..], b, name);
    }
  }

  /** The values `t` gives `name` come before those of the tokens after it. */
  lemma ValuesForCons(t: string, rest: seq<string>, name: string)
    ensures ValuesFor([t] + rest, name) == ValueOf(t, name) + ValuesFor(rest, name)
  {
    assert ([t] + rest)[1..] == rest;
  }

  /** A non-option `t` comes before the non-option tokens after it. */
  lemma NonOptionsCons(t: string, rest: seq<string>)
    ensures NonOptions([t] + rest) == (if IsOption(t) then [] else [t]) + NonOptions(rest)
  {
    assert ([t] + rest)[1..] == rest;
  }

  /** Filtering by a test and by its negation splits `s` into two parts that make up all of it. */
  lemma {:induction false} FilterPartition<T>(keep: T -> bool, drop: T -> bool, s: seq<T>)
    requires forall x :: drop(x) <==> !keep(x)
    ensures multiset(Filter(keep, s)) + multiset(Filter(drop, s)) == multiset(s)
  {
    if s != [] {
      FilterPartition(keep, drop, s[1..]);
      assert s == [s[0]] + s[1..];
    }
  }

  /** A value for `name` in `args` comes from some token of `args` that carries `name`. */
  lemma {:induction false} ValuesForNone(args: seq<string>, name: string)
    requires forall i :: 0 <= i < |args| ==> ValueOf(args[i], name) == []
    ensures ValuesFor(args, name) == []
  {
    if args != [] {
      assert forall i :: 0 <= i < |args[1..]| ==> args[1..][i] == args[i + 1];
      ValuesForNone(args[1..], name);
    }
  }

  /** The names the tokens of `a + [t]` carry are those of `a` and that of `t`. */
  lemma OptionNamesSnoc(a: seq<string>, t: string)
    ensures OptionNames(a + [t]) ==
            OptionNames(a) + (if IsOption(t) then {ParseOption(t).name} else {})
  {
    var s := a + [t];
    forall x | x in OptionNames(s)
      ensures x in OptionNames(a) + (if IsOption(t) then {ParseOption(t).name} else {})
    {
      var i :| 0 <= i < |s| && IsOption(s[i]) && ParseOption(s[i]).name == x;
      if i < |a| {
        assert s[i] == a[i];
      }
    }
    forall x | x in OptionNames(a)
      ensures x in OptionNames(s)
    {
      var i :| 0 <= i < |a| && IsOption(a[i]) && ParseOption(a[i]).name == x;
      assert s[i] == a[i];
    }
    if IsOption(t) {
      assert s[|a|] == t;
    }
  }

  // ---------------------------------------------------------------------
  // The pass over the tokens agrees with the reference definitions.

  lemma PrefixSupported(args: seq<string>, k: nat)
    requires AllSupported(args) && k <= |args|
    ensures AllSupported(args[..k])
  {
    forall i | 0 <= i < k ensures Supported(args[..k][i]) {
      assert args[..k][i] == args[i];
    }
  }

  /** The option names collected are exactly the names the option tokens carry. */
  lemma {:induction false} ParseNames(args: seq<string>)
    requires AllSupported(args)
    ensures Parse(args).options.Keys == OptionNames(args)
  {
    if args != [] {
      var init, t := args[..|args| - 1], args[|args| - 1];
      PrefixSupported(args, |args| - 1);
      ParseNames(init);
      assert args == init + [t];
      OptionNamesSnoc(init, t);
    }
  }

  /** Each name's value list holds that name's values in order of appearance. */
  lemma {:induction false} ParseValues(args: seq<string>, name: string)
    requires AllSupported(args)
    requires name in Parse(args).options
    ensures Parse(args).options[name] == ValuesFor(args, name)
  {
    var init, t := args[..|args| - 1], args[|args| - 1];
    PrefixSupported(args, |args| - 1);
    assert args == init + [t];
    ValuesForAppend(init, [t], name);
    assert ValuesFor([t], name) == ValueOf(t, name) + ValuesFor([], name);
    var p := Parse(init);
    if name in p.options {
      ParseValues(init, name);
    } else {
      ParseNames(init);
      ValuesForAbsent(init, name);
    }
  }

  /** A name that no option token carries has no values. */
  lemma {:induction false} ValuesForAbsent(args: seq<string>, name: string)
    requires name !in OptionNames(args)
    ensures ValuesFor(args, name) == []
  {
    if args != [] {
      assert args == [args[0]] + args[1..];
      forall x | x in OptionNames(args[1..]) ensures x in OptionNames(args) {
        var i :| 0 <= i < |args[1..]| && IsOption(args[1..][i]) && ParseOption(args[1..][i]).name == x;
        assert args[1..][i] == args[i + 1];
      }
      if IsOption(args[0]) {
        assert ParseOption(args[0]).name in OptionNames(args);
      }
      ValuesForAbsent(args[1..], name);
    }
  }

  /** The non-option list is exactly the non-option tokens in input order. */
  lemma {:induction false} ParseNonOptions(args: seq<string>)
    requires AllSupported(args)
    ensures Parse(args).nonOptions == NonOptions(args)
  {
    if args != [] {
      var init, t := args[..|args| - 1], args[|args| - 1];
      PrefixSupported(args, |args| - 1);
      ParseNonOptions(init);
      assert args == init + [t];
      FilterAppend((t: string) => !IsOption(t), init, [t]);
      assert Filter((t: string) => !IsOption(t), [t]) ==
             (if IsOption(t) then [] else [t]) + Filter((t: string) => !IsOption(t), []);
    }
  }

  /** Every token goes to exactly one of the two outputs, and to each as often as it occurs. */
  lemma Partition(args: seq<string>)
    requires AllSupported(args)
    ensures multiset(Parse(args).nonOptions) + multiset(OptionTokens(args)) == multiset(args)
    ensures |Parse(args).nonOptions| + |OptionTokens(args)| == |args|
    ensures forall t :: t in Parse(args).nonOptions ==> t in args && !IsOption(t)
    ensures forall t :: t in OptionTokens(args) ==> t in args && IsOption(t)
  {
    ParseNonOptions(args);
    FilterPartition((t: string) => !IsOption(t), IsOption, args);
    assert |multiset(args)| == |args|;
  }

  /** An option token contributes its name; a non-option token lands in the non-option list. */
  lemma TokenClassified(args: seq<string>, i: nat)
    requires AllSupported(args) && i < |args|
    ensures IsOption(args[i]) ==> ParseOption(args[i]).name in Parse(args).options
    ensures !IsOption(args[i]) ==> args[i] in Parse(args).nonOptions
  {
    if IsOption(args[i]) {
      ParseNames(args);
    } else {
      NonOptionPosition(args, i);
    }
  }

  /**
   * Non-option order is preserved: the non-option token at position `i` is
   * the one after all non-option tokens before `i` in the non-option list.
   */
  lemma NonOptionPosition(args: seq<string>, i: nat)
    requires AllSupported(args) && i < |args| && !IsOption(args[i])
    ensures |NonOptions(args[..i])| < |Parse(args).nonOptions|
    ensures Parse(args).nonOptions[|NonOptions(args[..i])|] == args[i]
  {
    ParseNonOptions(args);
    var keep := (t: string) => !IsOption(t);
    assert args == args[..i] + args[i..];
    FilterAppend(keep, args[..i], args[i..]);
    assert args[i..] == [args[i]] + args[i + 1..];
  }

  /** An input made only of option tokens leaves the non-option list empty. */
  lemma {:induction false} OnlyOptions(args: seq<string>)
    requires AllSupported(args)
    requires forall i :: 0 <= i < |args| ==> IsOption(args[i])
    ensures Parse(args).nonOptions == []
  {
    if args != [] {
      var init := args[..|args| - 1];
      PrefixSupported(args, |args| - 1);
      OnlyOptions(init);
    }
  }

  /**
   * A flag seen without any value is present with an empty value list, while
   * a name that no option token carries is absent: two different outcomes.
   */
  lemma FlagVersusAbsent(args: seq<string>, name: string)
    requires AllSupported(args)
    ensures (exists i :: 0 <= i < |args| && IsOption(args[i]) && ParseOption(args[i]).name == name) &&
            (forall i :: 0 <= i < |args| ==> ValueOf(args[i], name) == [])
            ==> name in Parse(args).options && Parse(args).options[name] == []
    ensures name !in OptionNames(args) ==> name !in Parse(args).options
  {
    ParseNames(args);
    if name in Parse(args).options {
      ParseValues(args, name);
      if forall i :: 0 <= i < |args| ==> ValueOf(args[i], name) == [] {
        ValuesForNone(args, name);
      }
    }
  }

  /**
   * A further `--name=value` or `--name` token appends its value (if any) to
   * the values given for that name, and changes neither the values of any
   * other name nor the non-option arguments: repeated values accumulate in
   * order of appearance.
   */
  lemma AppendOption(args: seq<string>, a: OptionArg)
    requires AllSupported(args)
    requires '=' !in a.name && Supported(Render(a))
    ensures AllSupported(args + [Render(a)])
    ensures ValuesFor(args + [Render(a)], a.name) ==
            ValuesFor(args, a.name) + (match a.value case None => [] case Some(v) => [v])
    ensures forall n :: n != a.name ==> ValuesFor(args + [Render(a)], n) == ValuesFor(args, n)
    ensures OptionNames(args + [Render(a)]) == OptionNames(args) + {a.name}
    ensures NonOptions(args + [Render(a)]) == NonOptions(args)
  {
    var t := Render(a);
    var s := args + [t];
    forall i | 0 <= i < |s| ensures Supported(s[i]) {
      if i < |args| { assert s[i] == args[i]; }
    }
    ParseRender(a);
    forall n ensures ValuesFor(s, n) == ValuesFor(args, n) + ValueOf(t, n) {
      ValuesForAppend(args, [t], n);
      ValuesForCons(t, [], n);
    }
    OptionNamesSnoc(args, t);
    FilterAppend((t: string) => !IsOption(t), args, [t]);
    NonOptionsCons(t, []);
  }
}
