/** The command line (main.py): the flag scan of `parse_args` and the order
    in which `main` acts on what it found. */
module Cli {
  import opened Text
  import Seqs

  predicate IsHelpFlag(arg: string)
  {
    arg in {"-h", "--help"}
  }

  predicate IsVersionFlag(arg: string)
  {
    arg in {"-V", "--version"}
  }

  predicate IsUpgradeFlag(arg: string)
  {
    arg == "--upgrade"
  }

  /** The arguments `parse_args` consumes as flags. */
  predicate IsFlag(arg: string)
  {
    IsHelpFlag(arg) || IsVersionFlag(arg) || IsUpgradeFlag(arg)
  }

  /** What `parse_args` returns: the other arguments and the three flags. */
  datatype Args = Args(remaining: seq<string>, showVersion: bool, showHelp: bool, doUpgrade: bool)

  /** The arguments that are not flags, in their original order. */
  function NonFlags(argv: seq<string>): seq<string>
    decreases |argv|
  {
    if |argv| == 0 then []
    else
      var front := NonFlags(argv[..|argv| - 1]);
      if IsFlag(argv[|argv| - 1]) then front else front + [argv[|argv| - 1]]
  }

  /** The three flags `parse_args` knows. */
  datatype FlagKind = Version | Help | Upgrade

  predicate IsFlagOf(kind: FlagKind, arg: string)
  {
    match kind
    case Version => IsVersionFlag(arg)
    case Help => IsHelpFlag(arg)
    case Upgrade => IsUpgradeFlag(arg)
  }

  /** An argument is a flag of at most one kind. */
  lemma FlagsDisjoint(arg: string)
    ensures !(IsHelpFlag(arg) && IsVersionFlag(arg))
    ensures !(IsHelpFlag(arg) && IsUpgradeFlag(arg))
    ensures !(IsVersionFlag(arg) && IsUpgradeFlag(arg))
  {
    if IsHelpFlag(arg) {
      assert arg[1] == '-' || arg[1] == 'h';
      assert |arg| == 2 || |arg| == 6;
    }
    if IsVersionFlag(arg) {
      assert |arg| == 2 || |arg| == 9;
    }
  }

  /** Some argument is a flag of that kind. */
  predicate Given(argv: seq<string>, kind: FlagKind)
  {
    exists i :: 0 <= i < |argv| && IsFlagOf(kind, argv[i])
  }

  /** The outcome of `parse_args(argv)`. */
  function ParsedArgs(argv: seq<string>): Args
  {
    Args(NonFlags(argv), Given(argv, Version), Given(argv, Help), Given(argv, Upgrade))
  }

  /** `parse_args(argv)`. `skip_next` is declared and tested but never set,
      so no argument is ever skipped. */
  method ParseArgs(argv: seq<string>) returns (r: Args)
    ensures r == ParsedArgs(argv)
  {
    var remaining: seq<string> := [];
    var showVersion, showHelp, doUpgrade := false, false, false;
    var skipNext := false;
    var i := 0;
    while i < |argv|
      invariant 0 <= i <= |argv|
      invariant !skipNext
      invariant remaining == NonFlags(argv[..i])
      invariant showVersion == Given(argv[..i], Version)
      invariant showHelp == Given(argv[..i], Help)
      invariant doUpgrade == Given(argv[..i], Upgrade)
    {
      var arg := argv[i];
      GivenStep(argv, i);
      FlagsDisjoint(arg);
      if skipNext {
        skipNext := false;
        i := i + 1;
        continue;
      }
      if IsHelpFlag(arg) {
        showHelp := true;
      } else if IsVersionFlag(arg) {
        showVersion := true;
      } else if IsUpgradeFlag(arg) {
        doUpgrade := true;
      } else {
        remaining := remaining + [arg];
      }
      i := i + 1;
    }
    assert argv[..i] == argv;
    r := Args(remaining, showVersion, showHelp, doUpgrade);
  }

  /** One more argument: the non-flags grow by it unless it is a flag, and
      each flag is given if it was already or the argument is that flag. */
  lemma GivenStep(argv: seq<string>, i: nat)
    requires i < |argv|
    ensures NonFlags(argv[..i + 1]) == if IsFlag(argv[i]) then NonFlags(argv[..i]) else NonFlags(argv[..i]) + [argv[i]]
    ensures Given(argv[..i + 1], Version) == (Given(argv[..i], Version) || IsVersionFlag(argv[i]))
    ensures Given(argv[..i + 1], Help) == (Given(argv[..i], Help) || IsHelpFlag(argv[i]))
    ensures Given(argv[..i + 1], Upgrade) == (Given(argv[..i], Upgrade) || IsUpgradeFlag(argv[i]))
  {
    var next := argv[..i + 1];
    assert next[..i] == argv[..i] && next[i] == argv[i];
    forall kind: FlagKind
      ensures Given(next, kind) == (Given(argv[..i], kind) || IsFlagOf(kind, argv[i]))
    {
      if Given(next, kind) && !IsFlagOf(kind, argv[i]) {
        var j :| 0 <= j < |next| && IsFlagOf(kind, next[j]);
        assert j < i && argv[..i][j] == next[j];
      }
      if Given(argv[..i], kind) {
        var j :| 0 <= j < i && IsFlagOf(kind, argv[..i][j]);
        assert next[j] == argv[..i][j];
      }
    }
  }

  /** No flag is passed on, every other argument is, in order. */
  lemma {:induction false} NonFlagsMembers(argv: seq<string>)
    ensures forall a :: a in NonFlags(argv) <==> a in argv && !IsFlag(a)
    ensures Seqs.IsSubsequence(NonFlags(argv), argv)
    decreases |argv|
  {
    if |argv| > 0 {
      var front := argv[..|argv| - 1];
      NonFlagsMembers(front);
      Seqs.FrontLast(argv);
      var r := NonFlags(argv);
      if !IsFlag(argv[|argv| - 1]) {
        assert r[..|r| - 1] == NonFlags(front);
      }
    }
  }

  /** Adding a flag anywhere leaves the other arguments alone. */
  lemma {:induction false} NonFlagsSkipFlag(a: seq<string>, flag: string, b: seq<string>)
    requires IsFlag(flag)
    ensures NonFlags(a + [flag] + b) == NonFlags(a + b)
    decreases |b|
  {
    if |b| == 0 {
      assert a + [flag] + b == a + [flag];
      assert (a + [flag])[..|a|] == a;
      assert a + b == a;
    } else {
      var front := b[..|b| - 1];
      NonFlagsSkipFlag(a, flag, front);
      assert (a + [flag] + b)[..|a + [flag] + b| - 1] == a + [flag] + front;
      assert (a + b)[..|a + b| - 1] == a + front;
    }
  }

  /** Repeating a flag that is already given changes nothing. */
  lemma RepeatedFlag(a: seq<string>, flag: string, b: seq<string>)
    requires IsFlag(flag) && flag in a + b
    ensures ParsedArgs(a + [flag] + b) == ParsedArgs(a + b)
  {
    NonFlagsSkipFlag(a, flag, b);
    var with, without := a + [flag] + b, a + b;
    var k :| 0 <= k < |without| && without[k] == flag;
    forall kind: FlagKind
      ensures Given(with, kind) == Given(without, kind)
    {
      if Given(with, kind) {
        var j :| 0 <= j < |with| && IsFlagOf(kind, with[j]);
        if j < |a| {
          assert without[j] == with[j];
        } else if j == |a| {
          assert without[k] == with[j];
        } else {
          assert without[j - 1] == with[j];
        }
      }
      if Given(without, kind) {
        var j :| 0 <= j < |without| && IsFlagOf(kind, without[j]);
        if j < |a| {
          assert with[j] == without[j];
        } else {
          assert with[j + 1] == without[j];
        }
      }
    }
  }

  /** What `main` does with the parsed arguments. */
  datatype Action =
    | PrintVersion
    | PrintHelp
    | RunUpgrade
    | NaturalLanguage(text: string)
    | LaunchUi

  /** The dispatch of `main`: version, then help, then upgrade, then the
      natural-language text, and otherwise the curses UI. */
  function Dispatch(args: Args): (a: Action)
    ensures a == PrintVersion <==> args.showVersion
    ensures a == PrintHelp <==> !args.showVersion && args.showHelp
    ensures a == RunUpgrade <==> !args.showVersion && !args.showHelp && args.doUpgrade
    ensures a.NaturalLanguage? <==> !args.showVersion && !args.showHelp && !args.doUpgrade && |args.remaining| > 0
    ensures a.NaturalLanguage? ==> a.text == Join(" ", args.remaining)
  {
    if args.showVersion then PrintVersion
    else if args.showHelp then PrintHelp
    else if args.doUpgrade then RunUpgrade
    else if |args.remaining| > 0 then NaturalLanguage(Join(" ", args.remaining))
    else LaunchUi
  }

  /** `main(argv)`: parse, then dispatch. */
  method Run(argv: seq<string>) returns (action: Action)
    ensures action == Dispatch(ParsedArgs(argv))
  {
    var args := ParseArgs(argv);
    action := Dispatch(args);
  }

  /** A version flag wins wherever it stands, over every other argument. */
  lemma VersionWins(a: seq<string>, b: seq<string>)
    ensures Dispatch(ParsedArgs(a + ["--version"] + b)) == PrintVersion
  {
    var argv := a + ["--version"] + b;
    assert argv[|a|] == "--version";
    assert IsFlagOf(Version, argv[|a|]);
  }

  /** Without flags, the natural-language text is the arguments joined by
      single spaces; with no arguments at all the UI starts. */
  lemma PlainArguments(argv: seq<string>)
    requires forall i :: 0 <= i < |argv| ==> !IsFlag(argv[i])
    ensures NonFlags(argv) == argv
    ensures Dispatch(ParsedArgs(argv)) == if |argv| == 0 then LaunchUi else NaturalLanguage(Join(" ", argv))
  {
    AllPlain(argv);
  }

  lemma {:induction false} AllPlain(argv: seq<string>)
    requires forall i :: 0 <= i < |argv| ==> !IsFlag(argv[i])
    ensures NonFlags(argv) == argv
    decreases |argv|
  {
    if |argv| > 0 {
      AllPlain(argv[..|argv| - 1]);
      Seqs.FrontLast(argv);
    }
  }
}
